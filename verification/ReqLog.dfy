/** The log of requests, from which finished entries are dropped by compacting it in place. */
module ReqLog {

  class Entry {
    var id: int
    var active: bool
    var endTime: int

    constructor (active: bool, endTime: int)
      ensures this.active == active && this.endTime == endTime
    {
      this.active, this.endTime := active, endTime;
      id := 0;
    }
  }

  /** A copy of an entry, as reports give it out. */
  datatype Copy = Copy(id: int, active: bool, endTime: int)

  function CopyOf(e: Entry): Copy
    reads e
  {
    Copy(e.id, e.active, e.endTime)
  }

  /** Active entries are kept, and finished ones for the keep time. */
  predicate Kept(e: Entry, keep: int, now: int)
    reads e`active, e`endTime
  {
    e.active || e.endTime + keep > now
  }

  /** The entries of `s` that are in `chosen`, in order. */
  ghost function Filter(s: seq<Entry>, chosen: set<Entry>): seq<Entry> {
    if s == [] then []
    else
      var init, last := s[..|s| - 1], s[|s| - 1];
      Filter(init, chosen) + if last in chosen then [last] else []
  }

  ghost function KeptOf(s: seq<Entry>, keep: int, now: int): set<Entry>
    reads (set e | e in s)`active, (set e | e in s)`endTime
  {
    set e | e in s && Kept(e, keep, now)
  }

  /** The entries to keep, in order. */
  ghost function Survivors(s: seq<Entry>, keep: int, now: int): seq<Entry>
    reads (set e | e in s)`active, (set e | e in s)`endTime
  {
    Filter(s, KeptOf(s, keep, now))
  }

  /** Ids strictly increase along the log. */
  ghost predicate Ascending(s: seq<Entry>, nextId: int)
    reads (set e | e in s)`id
  {
    && (forall i, j :: 0 <= i < j < |s| ==> s[i].id < s[j].id)
    && (forall i :: 0 <= i < |s| ==> s[i].id < nextId)
  }

  lemma {:induction false} FilterMembers(s: seq<Entry>, chosen: set<Entry>)
    ensures |Filter(s, chosen)| <= |s|
    ensures forall i :: 0 <= i < |Filter(s, chosen)| ==> Filter(s, chosen)[i] in s && Filter(s, chosen)[i] in chosen
    ensures forall e :: e in s && e in chosen ==> e in Filter(s, chosen)
  {
    if s != [] {
      var init, last := s[..|s| - 1], s[|s| - 1];
      FilterMembers(init, chosen);
      assert s == init + [last];
    }
  }

  /** Filtering keeps the order. */
  lemma {:induction false} FilterAscends(s: seq<Entry>, chosen: set<Entry>, nextId: int)
    requires Ascending(s, nextId)
    ensures Ascending(Filter(s, chosen), nextId)
  {
    if s != [] {
      var init, last := s[..|s| - 1], s[|s| - 1];
      FilterAscends(init, chosen, last.id);
      assert Ascending(Filter(init, chosen), last.id);
    }
  }

  /** Nothing is dropped from a list that is all chosen. */
  lemma {:induction false} FilterAll(s: seq<Entry>, chosen: set<Entry>)
    requires forall e :: e in s ==> e in chosen
    ensures Filter(s, chosen) == s
  {
    if s != [] {
      FilterAll(s[..|s| - 1], chosen);
    }
  }

  lemma FilterAppends(s: seq<Entry>, e: Entry, chosen: set<Entry>)
    ensures Filter(s + [e], chosen) == Filter(s, chosen) + if e in chosen then [e] else []
  {
    assert (s + [e])[..|s|] == s;
  }

  lemma RepeatDoesNotAscend(s: seq<Entry>, e: Entry, nextId: int)
    requires e in s
    ensures !Ascending(s + [e], nextId)
  {
    var i :| 0 <= i < |s| && s[i] == e;
    assert (s + [e])[i] == (s + [e])[|s|];
  }

  /** The ids of `s` ascend, not counting `e`, and stay below `bound`. */
  ghost predicate AscendsApartFrom(s: seq<Entry>, e: Entry, bound: int)
    reads (set x | x in s)`id
  {
    && (forall i, j :: 0 <= i < j < |s| && s[i] != e && s[j] != e ==> s[i].id < s[j].id)
    && (forall i :: 0 <= i < |s| && s[i] != e ==> s[i].id < bound)
  }

  /** After an entry got the last id and was appended, what is left ascends unless it holds the entry twice. */
  lemma AscendsIffOnce(s: seq<Entry>, e: Entry, chosen: set<Entry>, left: seq<Entry>)
    requires AscendsApartFrom(s, e, e.id)
    requires left == Filter(s + [e], chosen) || left == s + [e]
    ensures Ascending(left, e.id + 1) <==> e !in s || e !in left
  {
    var front := Filter(s, chosen);
    FilterAppends(s, e, chosen);
    FilterMembers(s, chosen);
    if left == s + [e] {
      if e in s { RepeatDoesNotAscend(s, e, e.id + 1); }
    } else if e !in chosen {
      FilterOthersAscend(s, e, chosen, e.id);
      assert chosen - {e} == chosen;
      assert front + [] == front;
    } else if e in s {
      RepeatDoesNotAscend(front, e, e.id + 1);
    } else {
      FilterAscends(s, chosen, e.id);
    }
  }

  /** Apart from `e`, what is left of a list that ascends apart from `e` does. */
  lemma {:induction false} FilterOthersAscend(s: seq<Entry>, e: Entry, chosen: set<Entry>, bound: int)
    requires AscendsApartFrom(s, e, bound)
    ensures Ascending(Filter(s, chosen - {e}), bound)
  {
    if s != [] {
      var init, last := s[..|s| - 1], s[|s| - 1];
      if last == e {
        FilterOthersAscend(init, e, chosen, bound);
      } else {
        FilterOthersAscend(init, e, chosen, last.id);
      }
    }
  }

  /**
   Compaction is a stable filter that drops exactly the entries not kept, and
   doing it again with the same clock drops nothing more.
   */
  lemma SurvivorsAreTheKept(s: seq<Entry>, keep: int, now: int, nextId: int)
    ensures forall e :: e in Survivors(s, keep, now) <==> e in s && (e.active || now < e.endTime + keep)
    ensures Ascending(s, nextId) ==> Ascending(Survivors(s, keep, now), nextId)
    ensures Survivors(Survivors(s, keep, now), keep, now) == Survivors(s, keep, now)
  {
    FilterMembers(s, KeptOf(s, keep, now));
    if Ascending(s, nextId) { FilterAscends(s, KeptOf(s, keep, now), nextId); }
    var kept := Survivors(s, keep, now);
    FilterAll(kept, KeptOf(kept, keep, now));
  }

  /** No end time lies in the future. */
  ghost predicate AllEnded(s: seq<Entry>, now: int)
    reads s
  {
    forall i :: 0 <= i < |s| ==> s[i].endTime <= now
  }

  /** With no keep time, all active entries survive, and only they do unless an end lies in the future. */
  lemma ClearedAreActive(s: seq<Entry>, now: int)
    ensures forall i :: 0 <= i < |s| && s[i].active ==> s[i] in Survivors(s, 0, now)
    ensures AllEnded(s, now) ==> forall i :: 0 <= i < |Survivors(s, 0, now)| ==> Survivors(s, 0, now)[i].active
  {
    var chosen := KeptOf(s, 0, now);
    FilterMembers(s, chosen);
    forall i | 0 <= i < |s| && s[i].active ensures s[i] in Survivors(s, 0, now) {
      assert s[i] in chosen;
    }
  }

  /** Moves the entries to keep to the front of the array, with one index reading and one writing. */
  method Compact(a: array<Entry>, n: nat, keep: int, now: int, ghost chosen: set<Entry>) returns (i: nat)
    requires n <= a.Length
    requires forall k :: 0 <= k < n ==> (a[k] in chosen <==> Kept(a[k], keep, now))
    modifies a
    ensures i <= n && a[..i] == Filter(old(a[..n]), chosen)
  {
    i := 0;
    ghost var before := a[..n];
    for j := 0 to n
      invariant i <= j
      invariant a[..i] == Filter(before[..j], chosen)
      invariant forall k :: j <= k < n ==> a[k] == before[k]
    {
      assert before[..j + 1][..j] == before[..j];
      assert before[j] in chosen <==> Kept(a[j], keep, now);
      if a[j].active || a[j].endTime + keep > now {
        ghost var front := a[..i];
        a[i] := a[j];
        i := i + 1;
        assert a[..i] == front + [before[j]];
      }
    }
    assert before[..n] == before;
  }

  class ReqLog {
    var requests: array<Entry>
    var len: nat
    var nextId: int
    var keep: int
    /** The logged entries, in order. */
    ghost var log: seq<Entry>

    constructor (keep: int)
      ensures Holds() && Ordered() && log == [] && nextId == 0 && this.keep == keep && fresh(requests)
    {
      requests := new Entry[0];
      len, nextId, log := 0, 0, [];
      this.keep := keep;
    }

    /** The slice in use holds the log. */
    ghost predicate Holds()
      reads this, requests
    {
      len <= requests.Length && requests[..len] == log
    }

    /** The ids of the log ascend. */
    ghost predicate Ordered()
      reads this`log, this`nextId, (set e | e in log)`id
    {
      Ascending(log, nextId)
    }

    /** Moves the entries to keep to the front and cuts the rest off. */
    method Cleanup(now: int)
      requires Holds()
      modifies requests, this`len, this`log
      ensures Holds() && log == Survivors(old(log), keep, now)
      ensures old(Ordered()) ==> Ordered()
    {
      ghost var chosen := KeptOf(log, keep, now);
      if Ordered() { FilterAscends(log, chosen, nextId); }
      log := Filter(log, chosen);
      len := Compact(requests, len, keep, now, chosen);
      assert chosen == KeptOf(old(log), keep, now);
    }

    /** Cleans up only when the length is a multiple of ten. */
    method MaybeCleanup(now: int)
      requires Holds()
      modifies requests, this`len, this`log
      ensures Holds()
      ensures log == if |old(log)| % 10 == 0 then Survivors(old(log), keep, now) else old(log)
      ensures old(Ordered()) ==> Ordered()
    {
      if len % 10 == 0 {
        Cleanup(now);
      }
    }

    /** Appends to the slice, moving to a larger array when the present one is full. */
    method Append(e: Entry)
      requires Holds()
      modifies this`requests, this`len, this`log, requests
      ensures Holds() && log == old(log) + [e]
      ensures requests == old(requests) || fresh(requests)
    {
      if len == requests.Length {
        var bigger := new Entry[2 * len + 1](_ => e);
        forall i | 0 <= i < len { bigger[i] := requests[i]; }
        requests := bigger;
      }
      requests[len] := e;
      len := len + 1;
      log := log + [e];
    }

    /**
     Gives an entry the next id and appends it. The ids of an ordered log ascend again
     exactly when the entry was not in it already, or is not in it any more.
     */
    method AddEntry(e: Entry, now: int)
      requires Holds()
      modifies this, requests, e`id
      ensures Holds() && keep == old(keep) && nextId == old(nextId) + 1 && e.id == old(nextId)
      ensures var all := old(log) + [e];
              log == if !e.active && |all| % 10 == 0 then Survivors(all, keep, now) else all
      ensures old(Ordered()) ==> (Ordered() <==> e !in old(log) || e !in log)
    {
      e.id := nextId;
      nextId := nextId + 1;
      assert old(Ordered()) ==> AscendsApartFrom(log, e, e.id);
      Append(e);
      if !e.active {
        MaybeCleanup(now);
      }
      if old(Ordered()) {
        AscendsIffOnce(old(log), e, KeptOf(old(log) + [e], keep, now), log);
      }
    }

    /** Marks an entry as finished now; it need not be in the log any more. */
    method Finish(e: Entry, now: int)
      requires Holds()
      modifies requests, this`len, this`log, e`active, e`endTime
      ensures Holds() && !e.active && e.endTime == now
      ensures log == if |old(log)| % 10 == 0 then Survivors(old(log), keep, now) else old(log)
      ensures old(Ordered()) ==> Ordered()
    {
      e.active := false;
      e.endTime := now;
      MaybeCleanup(now);
    }

    /**
     Drops all finished entries, whatever the keep time, which is then restored;
     `ClearedAreActive` says what is left.
     */
    method ClearInactive(now: int)
      requires Holds()
      modifies requests, this`len, this`log, this`keep
      ensures Holds() && keep == old(keep)
      ensures log == Survivors(old(log), 0, now)
      ensures old(Ordered()) ==> Ordered()
    {
      var k := keep;
      keep := 0;
      Cleanup(now);
      keep := k;
    }

    /** A copy of every entry, in order. */
    method Report() returns (out: seq<Copy>)
      requires Holds()
      ensures |out| == |log|
      ensures forall i :: 0 <= i < |out| ==> out[i] == Copy(log[i].id, log[i].active, log[i].endTime)
      ensures Ordered() ==> forall i, j :: 0 <= i < j < |out| ==> out[i].id < out[j].id < nextId
    {
      out := [];
      for i := 0 to len
        invariant |out| == i
        invariant forall j :: 0 <= j < i ==> out[j] == CopyOf(log[j])
      {
        assert requests[i] == log[i];
        out := out + [CopyOf(requests[i])];
      }
    }
  }
}
