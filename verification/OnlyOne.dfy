/** At most one open repository per key, shared by counting references. */
module OnlyOne {

  type Key = nat

  const UINT32: nat := 0x1_0000_0000

  /** A reference-counted repository; `closes` counts the closes of the underlying one. */
  datatype Counted = Counted(key: Key, refs: nat, closes: nat)

  /** Every repository ever opened, and which of them serves a key now. */
  datatype Table = Table(active: map<Key, nat>, repos: seq<Counted>)

  const EMPTY := Table(map[], [])

  function Increment(n: nat): nat { (n + 1) % UINT32 }

  function Decrement(n: nat): nat { (n + UINT32 - 1) % UINT32 }

  predicate InRange(t: Table) {
    forall k :: k in t.active ==> t.active[k] < |t.repos|
  }

  /** The repository that the next successful open of `key` hands out. */
  function Served(t: Table, key: Key): nat {
    if key in t.active then t.active[key] else |t.repos|
  }

  function Opened(t: Table, key: Key): Table
    requires InRange(t)
  {
    if key in t.active then
      var i := t.active[key];
      t.(repos := t.repos[i := t.repos[i].(refs := Increment(t.repos[i].refs))])
    else Table(t.active[key := |t.repos|], t.repos + [Counted(key, 1, 0)])
  }

  function Closed(t: Table, i: nat): Table
    requires i < |t.repos|
  {
    var r := t.repos[i].(refs := Decrement(t.repos[i].refs));
    if r.refs > 0 then t.(repos := t.repos[i := r])
    else Table(t.active - {r.key}, t.repos[i := r.(closes := r.closes + 1)])
  }

  /* ----- Runs ----- */

  /** The table, and for every repository how many more opens than closes there were of it. */
  datatype State = State(table: Table, held: seq<int>)

  const INITIAL := State(EMPTY, [])

  /** `OpenFails` is an open whose key is not active and whose open function fails. */
  datatype Action = Open(key: Key) | OpenFails(key: Key) | Close(repo: nat)

  /** Any handle may be closed at any time, however often. */
  ghost predicate Step(s: State, a: Action, s': State) {
    && InRange(s.table) && |s.held| == |s.table.repos|
    && match a
       case Open(key) =>
         var i := Served(s.table, key);
         && s'.table == Opened(s.table, key)
         && s'.held == (if i < |s.held| then s.held[i := s.held[i] + 1] else s.held + [1])
       case OpenFails(key) =>
         key !in s.table.active && s' == s
       case Close(i) =>
         i < |s.held| && s' == State(Closed(s.table, i), s.held[i := s.held[i] - 1])
  }

  ghost predicate IsRun(run: seq<State>, steps: seq<Action>) {
    && |run| == |steps| + 1
    && run[0] == INITIAL
    && forall i :: 0 <= i < |steps| ==> Step(run[i], steps[i], run[i + 1])
  }

  /** The counter of a repository is its handles, modulo 2^32; an active key leads to a repository of its own. */
  ghost predicate Linked(s: State) {
    && |s.held| == |s.table.repos|
    && (forall i :: 0 <= i < |s.held| ==> s.table.repos[i].refs == s.held[i] % UINT32)
    && (forall k :: k in s.table.active ==> s.table.active[k] < |s.held| && s.table.repos[s.table.active[k]].key == k)
  }

  lemma CountsModulo(held: int)
    ensures Increment(held % UINT32) == (held + 1) % UINT32
    ensures Decrement(held % UINT32) == (held - 1) % UINT32
  {
  }

  lemma StepKeepsLinked(s: State, a: Action, s': State)
    requires Linked(s) && Step(s, a, s')
    ensures Linked(s')
  {
    match a {
      case Open(key) => if key in s.table.active { CountsModulo(s.held[s.table.active[key]]); }
      case OpenFails(_) =>
      case Close(i) => CountsModulo(s.held[i]);
    }
  }

  lemma {:induction false} RunLinked(run: seq<State>, steps: seq<Action>, n: nat)
    requires IsRun(run, steps) && n < |run|
    ensures Linked(run[n])
  {
    if n > 0 {
      RunLinked(run, steps, n - 1);
      StepKeepsLinked(run[n - 1], steps[n - 1], run[n]);
    }
  }

  /**
   In every run, handles closed twice and counters wrapped around included: a close
   closes the repository, and frees its key, exactly when it leaves a multiple of 2^32
   more opens than closes; and opens never close any.
   */
  lemma ClosesAtMultiples(run: seq<State>, steps: seq<Action>, n: nat, i: nat)
    requires IsRun(run, steps) && n < |steps| && i < |run[n].table.repos|
    ensures |run[n].held| == |run[n].table.repos| <= |run[n + 1].table.repos|
    ensures var t, t' := run[n].table, run[n + 1].table;
            var closes := steps[n] == Close(i) && (run[n].held[i] - 1) % 0x1_0000_0000 == 0;
            && t'.repos[i].closes == t.repos[i].closes + (if closes then 1 else 0)
            && (closes ==> t'.active == t.active - {t.repos[i].key})
  {
    RunLinked(run, steps, n);
    assert Step(run[n], steps[n], run[n + 1]);
    CountsModulo(run[n].held[i]);
  }

  /* ----- Runs without double closes ----- */

  /** A caller closes a handle it holds; fewer than 2^32 handles are held at a time. */
  ghost predicate Proper(s: State, a: Action) {
    match a
    case Open(key) => var i := Served(s.table, key); i < |s.held| ==> s.held[i] + 1 < UINT32
    case OpenFails(_) => true
    case Close(i) => i < |s.held| && s.held[i] > 0
  }

  ghost predicate IsProperRun(run: seq<State>, steps: seq<Action>) {
    IsRun(run, steps) && forall i :: 0 <= i < |steps| ==> Proper(run[i], steps[i])
  }

  /** The counter of a repository counts its handles; it is open and active while there are any. */
  ghost predicate RepoOk(s: State, i: nat)
    requires i < |s.held| == |s.table.repos|
  {
    var r := s.table.repos[i];
    && r.refs == s.held[i] < UINT32
    && r.closes == (if s.held[i] > 0 then 0 else 1)
    && (s.held[i] > 0 <==> r.key in s.table.active && s.table.active[r.key] == i)
  }

  ghost predicate Inv(s: State) {
    && |s.held| == |s.table.repos|
    && (forall i: nat :: i < |s.held| ==> RepoOk(s, i))
    && (forall k :: k in s.table.active ==> s.table.active[k] < |s.held| && s.table.repos[s.table.active[k]].key == k)
  }

  lemma StepKeepsInv(s: State, a: Action, s': State)
    requires Inv(s) && Step(s, a, s') && Proper(s, a)
    ensures Inv(s')
  {
    forall i: nat | i < |s'.held| ensures |s'.held| == |s'.table.repos| && RepoOk(s', i) {
      if i < |s.held| {
        assert RepoOk(s, i);
      }
      if a.Close? {
        assert RepoOk(s, a.repo);
      }
    }
  }

  lemma {:induction false} RunInv(run: seq<State>, steps: seq<Action>, i: nat)
    requires IsProperRun(run, steps) && i < |run|
    ensures Inv(run[i])
  {
    if i > 0 {
      RunInv(run, steps, i - 1);
      StepKeepsInv(run[i - 1], steps[i - 1], run[i]);
    }
  }

  /**
   In every run in which no handle is closed twice: the counter equals the
   outstanding handles, no two repositories of one key are open together, and a
   repository is closed exactly once, when its last handle is.
   */
  lemma OneOpenRepoPerKey(run: seq<State>, steps: seq<Action>, n: nat, i: nat, j: nat)
    requires IsProperRun(run, steps) && n < |run|
    requires i < |run[n].table.repos| && j < |run[n].table.repos|
    ensures |run[n].held| == |run[n].table.repos|
    ensures var s := run[n]; s.table.repos[i].refs == s.held[i]
    ensures var s := run[n]; s.table.repos[i].closes == if s.held[i] > 0 then 0 else 1
    ensures var s := run[n]; s.held[i] > 0 && s.held[j] > 0 && s.table.repos[i].key == s.table.repos[j].key ==> i == j
  {
    RunInv(run, steps, n);
    assert RepoOk(run[n], i) && RepoOk(run[n], j);
  }

  /**
   Closing a handle once too often is not caught. The repository is closed, under
   the only other holder, exactly when one handle is held; with none held the
   counter wraps around, and with more it is one short from then on.
   */
  lemma ExtraClose(s: State, i: nat)
    requires Inv(s) && i < |s.held|
    ensures Closed(s.table, i).repos[i].closes == s.table.repos[i].closes + (if s.held[i] == 1 then 1 else 0)
    ensures Closed(s.table, i).active == s.table.active - (if s.held[i] == 1 then {s.table.repos[i].key} else {})
    ensures Closed(s.table, i).repos[i].refs == if s.held[i] == 0 then 0xFFFF_FFFF else s.held[i] - 1
  {
    assert RepoOk(s, i);
  }

  /**
   Two callers open a repository and one closes it twice: it is closed while the
   other still holds it, and the next open of the key opens a second one.
   */
  lemma ExtraCloseExample(key: Key)
    ensures var t := Closed(Closed(Opened(Opened(EMPTY, key), key), 0), 0);
            t.repos[0].closes == 1 && key !in t.active && Served(t, key) == 1
  {
  }

  /** One more open is counted exactly as long as the handles held fit the counter; else it is at zero. */
  lemma CountsWhileTheyFit(s: State, i: nat)
    requires Inv(s) && i < |s.held| && s.held[i] > 0
    ensures var t := Opened(s.table, s.table.repos[i].key);
            && (t.repos[i].refs == s.held[i] + 1 <==> s.held[i] + 1 < 0x1_0000_0000)
            && (t.repos[i].refs == 0 <==> s.held[i] + 1 == 0x1_0000_0000)
  {
    assert RepoOk(s, i);
  }

  /* ----- The objects ----- */

  class Ref {
    const key: Key
    var refs: nat
    var closes: nat
    ghost const index: nat

    constructor (key: Key, ghost index: nat)
      ensures this.key == key && this.index == index && refs == 0 && closes == 0
    {
      this.key, this.index := key, index;
      refs, closes := 0, 0;
    }
  }

  class OnlyOne {
    var active: map<Key, Ref>
    ghost var all: seq<Ref>

    constructor ()
      ensures Valid() && Contents() == EMPTY
    {
      active, all := map[], [];
    }

    ghost predicate Valid()
      reads this, all
    {
      && (forall i :: 0 <= i < |all| ==> all[i].index == i)
      && (forall k :: k in active ==> active[k] in all && active[k].key == k)
    }

    ghost function Contents(): Table
      reads this, all
    {
      Table(map k | k in active :: active[k].index,
            seq(|all|, i requires 0 <= i < |all| reads this, all => Counted(all[i].key, all[i].refs, all[i].closes)))
    }

    /** Hands out the open repository of the key, opening one if there is none. */
    method Open(key: Key, opens: bool) returns (item: Ref?)
      requires Valid()
      modifies this, all
      ensures Valid() && old(all) <= all
      ensures item == null <==> key !in old(active) && !opens
      ensures item != null ==> item.key == key && key in active && active[key] == item
      ensures key in old(active) ==> item == old(active)[key]
      ensures item == null ==> Contents() == old(Contents()) && all == old(all)
      ensures item != null ==>
                InRange(old(Contents())) && Contents() == Opened(old(Contents()), key)
                && Served(old(Contents()), key) < |all| && item == all[Served(old(Contents()), key)]
    {
      assert InRange(Contents()) by {
        forall k | k in active ensures active[k].index < |all| {}
      }
      if key !in active {
        if !opens {
          return null;
        }
        item := AddRef(key);
      } else {
        item := active[key];
      }
      CountHandle(item);
    }

    /** Counts one more handle of a repository. */
    method CountHandle(item: Ref)
      requires Valid() && item in all
      modifies item`refs
      ensures Valid() && item.index < |all| && all[item.index] == item
      ensures var before, i := old(Contents()), item.index;
              Contents() == before.(repos := before.repos[i := before.repos[i].(refs := Increment(old(item.refs)))])
    {
      ghost var before := Contents();
      assert all[item.index] == item;
      item.refs := Increment(item.refs);
      assert Contents().active == before.active;
      assert Contents().repos == before.repos[item.index := before.repos[item.index].(refs := item.refs)];
    }

    /** Remembers a newly opened repository under its key, with no handle given out yet. */
    method AddRef(key: Key) returns (item: Ref)
      requires Valid() && key !in active
      modifies this
      ensures Valid() && all == old(all) + [item] && active == old(active)[key := item] && fresh(item)
      ensures var before := old(Contents());
              Contents() == Table(before.active[key := |old(all)|], before.repos + [Counted(key, 0, 0)])
    {
      item := new Ref(key, |all|);
      active := active[key := item];
      all := all + [item];
      assert Contents().active == old(Contents()).active[key := |old(all)|];
      assert Contents().repos == old(Contents()).repos + [Counted(key, 0, 0)];
    }

    /** Gives one handle back; the last one closes the repository. */
    method Close(r: Ref)
      requires Valid() && r in all
      modifies this, r
      ensures Valid() && all == old(all) && r.index < |all|
      ensures Contents() == Closed(old(Contents()), r.index)
    {
      r.refs := Decrement(r.refs);
      if r.refs == 0 {
        active := active - {r.key};
        r.closes := r.closes + 1;
      }
      assert Contents().active == Closed(old(Contents()), r.index).active;
      assert Contents().repos == Closed(old(Contents()), r.index).repos;
    }
  }
}
