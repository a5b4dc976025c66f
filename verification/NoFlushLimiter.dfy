/**
 The limit on unflushed operations. Each caller first compares the shared
 counter with the limit and then, in a separate atomic step, increments it; a flush
 resets it. Any number of callers interleave.
 */
module NoFlushLimiter {

  type Caller = nat

  /** `passed` are the callers between their check and their increment. */
  datatype State = State(counter: nat, passed: set<Caller>)

  datatype Action = Check(caller: Caller) | Add(caller: Caller) | Reset

  const INIT := State(0, {})

  /** The check of a caller below the limit, or without a limit, lets it through. */
  predicate Passes(limit: int, s: State) {
    !(limit > 0 && s.counter >= limit)
  }

  ghost predicate Step(limit: int, callers: set<Caller>, s: State, a: Action, s': State) {
    match a
    case Check(c) =>
      && c in callers && c !in s.passed
      && s' == if Passes(limit, s) then s.(passed := s.passed + {c}) else s
    case Add(c) =>
      c in s.passed && s' == State(s.counter + 1, s.passed - {c})
    case Reset =>
      s' == s.(counter := 0)
  }

  /** A run: the states it goes through, from the initial one, and the steps between them. */
  ghost predicate IsRun(limit: int, callers: set<Caller>, run: seq<State>, steps: seq<Action>) {
    && |run| == |steps| + 1
    && run[0] == INIT
    && forall i :: 0 <= i < |steps| ==> Step(limit, callers, run[i], steps[i], run[i + 1])
  }

  ghost predicate Reachable(limit: int, callers: set<Caller>, s: State) {
    exists run, steps :: IsRun(limit, callers, run, steps) && run[|steps|] == s
  }

  /** Every caller that has passed its check may still add one. */
  ghost predicate Inv(limit: int, callers: set<Caller>, s: State) {
    && s.passed <= callers
    && (limit > 0 ==> s.counter + |s.passed| <= limit + |callers| - (if callers == {} then 0 else 1))
  }

  lemma StepKeepsInv(limit: int, callers: set<Caller>, s: State, a: Action, s': State)
    requires Inv(limit, callers, s) && Step(limit, callers, s, a, s')
    ensures Inv(limit, callers, s')
  {
    if a.Check? {
      SubsetSize(s'.passed, callers);
    }
  }

  lemma {:induction false} SubsetSize<T>(a: set<T>, b: set<T>)
    requires a <= b
    ensures |a| <= |b|
    decreases a
  {
    if x :| x in a {
      SubsetSize(a - {x}, b - {x});
    }
  }

  lemma {:induction false} RunKeepsInv(limit: int, callers: set<Caller>, run: seq<State>, steps: seq<Action>, i: nat)
    requires IsRun(limit, callers, run, steps) && i < |run|
    ensures Inv(limit, callers, run[i])
  {
    if i > 0 {
      RunKeepsInv(limit, callers, run, steps, i - 1);
      StepKeepsInv(limit, callers, run[i - 1], steps[i - 1], run[i]);
    }
  }

  /** With `N` callers and a positive limit the counter never exceeds the limit by more than `N - 1`. */
  lemma CounterBound(limit: int, callers: set<Caller>, s: State)
    requires limit > 0 && callers != {} && Reachable(limit, callers, s)
    ensures s.counter <= limit + |callers| - 1
  {
    var run, steps :| IsRun(limit, callers, run, steps) && run[|steps|] == s;
    RunKeepsInv(limit, callers, run, steps, |steps|);
  }

  lemma ReachStep(limit: int, callers: set<Caller>, s: State, a: Action, s': State)
    requires Reachable(limit, callers, s) && Step(limit, callers, s, a, s')
    ensures Reachable(limit, callers, s')
  {
    var run, steps :| IsRun(limit, callers, run, steps) && run[|steps|] == s;
    assert IsRun(limit, callers, run + [s'], steps + [a]);
  }

  /** One caller alone brings the counter up to any value the limit allows. */
  lemma {:induction false} ReachAlone(limit: int, callers: set<Caller>, c: Caller, n: nat)
    requires c in callers && (limit > 0 ==> n <= limit)
    ensures Reachable(limit, callers, State(n, {}))
  {
    if n == 0 {
      assert IsRun(limit, callers, [INIT], []);
    } else {
      ReachAlone(limit, callers, c, n - 1);
      ReachStep(limit, callers, State(n - 1, {}), Check(c), State(n - 1, {c}));
      assert {c} - {c} == {};
      ReachStep(limit, callers, State(n - 1, {c}), Add(c), State(n, {}));
    }
  }

  /** All callers may pass their check before any of them adds. */
  lemma {:induction false} AllPass(limit: int, callers: set<Caller>, n: nat, group: set<Caller>)
    requires Passes(limit, State(n, {})) && group <= callers && Reachable(limit, callers, State(n, {}))
    ensures Reachable(limit, callers, State(n, group))
    decreases group
  {
    if c :| c in group {
      AllPass(limit, callers, n, group - {c});
      assert group - {c} + {c} == group;
      ReachStep(limit, callers, State(n, group - {c}), Check(c), State(n, group));
    } else {
      assert group == {};
    }
  }

  lemma {:induction false} AllAdd(limit: int, callers: set<Caller>, n: nat, group: set<Caller>)
    requires Reachable(limit, callers, State(n, group))
    ensures Reachable(limit, callers, State(n + |group|, {}))
    decreases group
  {
    if c :| c in group {
      ReachStep(limit, callers, State(n, group), Add(c), State(n + 1, group - {c}));
      AllAdd(limit, callers, n + 1, group - {c});
    }
  }

  /** The bound is exact: some run reaches it, for every limit and every set of callers. */
  lemma CounterBoundIsReached(limit: int, callers: set<Caller>)
    requires limit > 0 && callers != {}
    ensures Reachable(limit, callers, State(limit - 1 + |callers|, {}))
  {
    var c :| c in callers;
    ReachAlone(limit, callers, c, limit - 1);
    AllPass(limit, callers, limit - 1, callers);
    AllAdd(limit, callers, limit - 1, callers);
  }

  /** Exactly the counters up to that bound can be reached; without a limit, all of them. */
  lemma ReachableCounters(limit: int, callers: set<Caller>, n: nat)
    requires callers != {}
    ensures (exists s :: Reachable(limit, callers, s) && s.counter == n) <==>
            (limit > 0 ==> n <= limit + |callers| - 1)
  {
    forall s | Reachable(limit, callers, s) && limit > 0 ensures s.counter <= limit + |callers| - 1 {
      CounterBound(limit, callers, s);
    }
    if limit > 0 ==> n <= limit + |callers| - 1 {
      var c :| c in callers;
      if limit <= 0 || n <= limit - 1 {
        ReachAlone(limit, callers, c, n);
        assert State(n, {}).counter == n;
      } else {
        var extra := n - (limit - 1);
        var group := SubsetOfSize(callers, extra);
        ReachAlone(limit, callers, c, limit - 1);
        AllPass(limit, callers, limit - 1, group);
        AllAdd(limit, callers, limit - 1, group);
        assert State(limit - 1 + |group|, {}).counter == n;
      }
    }
  }

  lemma {:induction false} SubsetOfSize(callers: set<Caller>, n: nat) returns (group: set<Caller>)
    requires n <= |callers|
    ensures group <= callers && |group| == n
    decreases |callers| - n
  {
    if n == |callers| {
      group := callers;
    } else {
      var larger := SubsetOfSize(callers, n + 1);
      var c :| c in larger;
      group := larger - {c};
    }
  }

  /**
   One caller's own code. `between` is the counter value the other callers
   have left by the time of the increment.
   */
  class Counter {
    var operations: nat
    var limit: int
    var limitCached: bool

    constructor ()
      ensures operations == 0 && !limitCached
    {
      operations, limit, limitCached := 0, 0, false;
    }

    /**
     Flushes reset; otherwise the limit, cached on first use, is checked and the
     counter incremented. For the transition system above an accepted call of
     caller `me` is its check, with the callers `before` past theirs, and later its
     increment, by when `after` are; a refused call is a check that changes nothing.
     */
    method Update(flush: bool, configured: int, between: nat,
                  ghost callers: set<Caller>, ghost me: Caller, ghost before: set<Caller>, ghost after: set<Caller>)
      returns (ok: bool)
      requires me in callers && me !in before && me in after
      modifies this
      ensures flush ==> ok && limit == old(limit) && limitCached == old(limitCached)
      ensures flush ==> Step(limit, callers, State(old(operations), before), Reset, State(operations, before))
      ensures !flush ==> limitCached && limit == if old(limitCached) then old(limit) else configured
      ensures !flush && ok ==>
                && Step(limit, callers,
                        State(old(operations), before), Check(me), State(old(operations), before + {me}))
                && Step(limit, callers, State(between, after), Add(me), State(operations, after - {me}))
      ensures !flush && !ok ==>
                && Step(limit, callers, State(old(operations), before), Check(me), State(old(operations), before))
                && operations == old(operations)
    {
      if flush {
        operations := 0;
        return true;
      }
      if !limitCached {
        limit, limitCached := configured, true;
      }
      if limit > 0 && operations >= limit {
        return false;
      }
      operations := between;
      operations := operations + 1;
      ok := true;
    }
  }
}
