/** The custom routing configuration: named routers that may refer to each other. */
module RouterConfig {
  import opened Sequences
  import opened Wrappers

  datatype Kind = Parallel | Sequential

  datatype Child = Child(name: string, timeout: int, ignoreErrors: bool, executeAfter: Option<int>)

  /**
   One configured router. `connects` and `builds` tell whether the HTTP client
   or the DHT, which are outside this model, can be constructed from the
   remaining parameters. The `Null` forms carry JSON null as parameters.
   */
  datatype Router =
    | Http(endpoint: string, connects: bool)
    | Dht(builds: bool)
    | Composite(kind: Kind, children: seq<Child>)
    | NullHttp
    | NullComposite(kind: Kind)
    | UnknownType(typ: string)

  type Routers = map<string, Router>

  /** The router can be built once its children are. */
  predicate WellFormed(r: Router) {
    match r
    case Http(endpoint, connects) => endpoint != "" && connects
    case Dht(builds) => builds
    case Composite(_, _) => true
    case _ => false
  }

  function ChildNames(r: Router): seq<string> {
    if r.Composite? then seq(|r.children|, i requires 0 <= i < |r.children| => r.children[i].name) else []
  }

  /** The routers that router `n` refers to. */
  function Refs(cfgs: Routers, n: string): seq<string> {
    if n in cfgs then ChildNames(cfgs[n]) else []
  }

  /** A non-empty chain of references. */
  ghost predicate IsPath(cfgs: Routers, p: seq<string>) {
    && |p| > 0
    && forall i, j {:trigger p[i], p[j]} :: 0 <= i && j == i + 1 && j < |p| ==> p[j] in Refs(cfgs, p[i])
  }

  ghost predicate PathFrom(cfgs: Routers, n: string, p: seq<string>) {
    IsPath(cfgs, p) && p[0] == n
  }

  function Last<T>(s: seq<T>): T
    requires s != []
  {
    s[|s| - 1]
  }

  /** A router can be built exactly when all it leads to is configured, and in one of these ways. */
  lemma BuildableByCases(cfgs: Routers, n: string)
    ensures Buildable(cfgs, n) <==>
            forall p :: PathFrom(cfgs, n, p) ==>
              && Distinct(p) && Last(p) in cfgs
              && (var r := cfgs[Last(p)];
                  || (r.Http? && |r.endpoint| > 0 && r.connects)
                  || (r.Dht? && r.builds)
                  || (r.Composite? && (r.kind == Parallel || r.kind == Sequential)))
  {
  }

  /** Everything reachable from `n` is defined and well-formed, and no reference chain repeats. */
  ghost predicate Buildable(cfgs: Routers, n: string) {
    forall p :: PathFrom(cfgs, n, p) ==> Last(p) in cfgs && WellFormed(cfgs[Last(p)]) && Distinct(p)
  }

  lemma PathExtends(cfgs: Routers, p: seq<string>, n: string)
    requires IsPath(cfgs, p) && n in Refs(cfgs, Last(p))
    ensures IsPath(cfgs, p + [n])
  {
  }

  lemma PathPrepends(cfgs: Routers, n: string, p: seq<string>)
    requires IsPath(cfgs, p) && p[0] in Refs(cfgs, n)
    ensures PathFrom(cfgs, n, [n] + p) && Last([n] + p) == Last(p)
  {
  }

  /* ----- Does a router provide over HTTP? ----- */

  /**
   The unguarded recursion that looks for an HTTP router below `n`, cut off
   after `fuel` nested calls: `None` when that is not enough.
   */
  function SupportsHttp(cfgs: Routers, n: string, fuel: nat): Option<bool>
    decreases fuel, 1, 0
  {
    if fuel == 0 then None
    else if n !in cfgs then Some(false)
    else if cfgs[n].Http? || cfgs[n].NullHttp? then Some(true)
    else AnySupportsHttp(cfgs, ChildNames(cfgs[n]), fuel - 1)
  }

  /** The loop over the children, left at the first that answers yes. */
  function AnySupportsHttp(cfgs: Routers, names: seq<string>, fuel: nat): Option<bool>
    decreases fuel, 2, |names|
  {
    if names == [] then Some(false)
    else
      var first := SupportsHttp(cfgs, names[0], fuel);
      if first == Some(false) then AnySupportsHttp(cfgs, names[1..], fuel) else first
  }

  ghost predicate HttpReachable(cfgs: Routers, n: string) {
    exists p :: PathFrom(cfgs, n, p) && Last(p) in cfgs && (cfgs[Last(p)].Http? || cfgs[Last(p)].NullHttp?)
  }

  ghost predicate Acyclic(cfgs: Routers, n: string) {
    forall p :: PathFrom(cfgs, n, p) ==> Distinct(p)
  }

  lemma {:induction false} AnySupports(cfgs: Routers, names: seq<string>, fuel: nat)
    requires forall n :: n in names ==> SupportsHttp(cfgs, n, fuel).Some?
    ensures AnySupportsHttp(cfgs, names, fuel)
         == Some(exists n :: n in names && SupportsHttp(cfgs, n, fuel) == Some(true))
    decreases |names|
  {
    if names != [] {
      AnySupports(cfgs, names[1..], fuel);
      assert names == [names[0]] + names[1..];
      if SupportsHttp(cfgs, names[0], fuel).value {
        assert names[0] in names;
      } else {
        assert (exists n :: n in names && SupportsHttp(cfgs, n, fuel) == Some(true))
          <==> (exists n :: n in names[1..] && SupportsHttp(cfgs, n, fuel) == Some(true));
      }
    }
  }

  lemma {:induction false} AnySupportsFalse(cfgs: Routers, names: seq<string>, fuel: nat)
    requires AnySupportsHttp(cfgs, names, fuel) == Some(false)
    ensures forall n :: n in names ==> SupportsHttp(cfgs, n, fuel) == Some(false)
    decreases |names|
  {
    if names != [] {
      AnySupportsFalse(cfgs, names[1..], fuel);
    }
  }

  /** A path without repetitions visits each defined router at most once. */
  lemma PathBound(cfgs: Routers, p: seq<string>)
    requires IsPath(cfgs, p) && Distinct(p)
    ensures |p| <= |cfgs| + 1
    ensures Last(p) in cfgs ==> |p| <= |cfgs|
  {
    var q := if Last(p) in cfgs then p else p[..|p| - 1];
    forall i | 0 <= i < |q| ensures q[i] in cfgs.Keys {
      if i + 1 < |p| { assert p[i + 1] in Refs(cfgs, p[i]); }
    }
    DistinctFits(q, cfgs.Keys);
  }

  /** Below an acyclic root, the recursion answers within the calls the configuration has room for. */
  lemma {:induction false} SupportsDecides(cfgs: Routers, root: string, p: seq<string>, fuel: nat)
    requires Acyclic(cfgs, root) && PathFrom(cfgs, root, p)
    requires fuel + |p| >= |cfgs| + 2
    ensures fuel > 0 && SupportsHttp(cfgs, Last(p), fuel) == Some(HttpReachable(cfgs, Last(p)))
    decreases fuel
  {
    var n := Last(p);
    PathBound(cfgs, p);
    var refs := Refs(cfgs, n);
    if n in cfgs && (cfgs[n].Http? || cfgs[n].NullHttp?) {
      assert PathFrom(cfgs, n, [n]);
    } else {
      forall m | m in refs ensures fuel > 1 && SupportsHttp(cfgs, m, fuel - 1) == Some(HttpReachable(cfgs, m)) {
        PathExtends(cfgs, p, m);
        SupportsDecides(cfgs, root, p + [m], fuel - 1);
      }
      if n in cfgs { AnySupports(cfgs, refs, fuel - 1); }
      HttpBelow(cfgs, n);
    }
  }

  /** A router that is not itself HTTP reaches one exactly when one of its children does. */
  lemma HttpBelow(cfgs: Routers, n: string)
    requires n in cfgs ==> !cfgs[n].Http? && !cfgs[n].NullHttp?
    ensures HttpReachable(cfgs, n) <==> exists m :: m in Refs(cfgs, n) && HttpReachable(cfgs, m)
  {
    if HttpReachable(cfgs, n) {
      var p :| PathFrom(cfgs, n, p) && Last(p) in cfgs && (cfgs[Last(p)].Http? || cfgs[Last(p)].NullHttp?);
      assert p[1] in Refs(cfgs, p[0]);
      assert PathFrom(cfgs, p[1], p[1..]) && Last(p[1..]) == Last(p);
    }
    forall m | m in Refs(cfgs, n) && HttpReachable(cfgs, m) ensures HttpReachable(cfgs, n) {
      var p :| PathFrom(cfgs, m, p) && Last(p) in cfgs && (cfgs[Last(p)].Http? || cfgs[Last(p)].NullHttp?);
      PathPrepends(cfgs, n, p);
    }
  }

  /**
   On every router that can be built, the unguarded recursion terminates and
   says whether an HTTP router is reachable.
   */
  lemma SupportsHttpIsReachability(cfgs: Routers, n: string, fuel: nat)
    requires Buildable(cfgs, n) && fuel > |cfgs|
    ensures SupportsHttp(cfgs, n, fuel)
         == Some(exists p :: PathFrom(cfgs, n, p) && Last(p) in cfgs && cfgs[Last(p)].Http?)
  {
    assert PathFrom(cfgs, n, [n]);
    SupportsDecides(cfgs, n, [n], fuel);
  }

  /** A completed search that found nothing has followed every path to its end. */
  lemma {:induction false} FalseBoundsPaths(cfgs: Routers, n: string, fuel: nat, p: seq<string>)
    requires SupportsHttp(cfgs, n, fuel) == Some(false) && PathFrom(cfgs, n, p)
    ensures |p| <= fuel
    decreases fuel
  {
    if |p| > 1 {
      assert p[1] in Refs(cfgs, p[0]);
      AnySupportsFalse(cfgs, Refs(cfgs, n), fuel - 1);
      FalseBoundsPaths(cfgs, p[1], fuel - 1, p[1..]);
    }
  }

  /** A path that repeats a router can be made as long as one likes. */
  lemma {:induction false} CyclesPump(cfgs: Routers, n: string, p: seq<string>, i: nat, j: nat, size: nat)
    returns (q: seq<string>)
    requires PathFrom(cfgs, n, p) && i < j < |p| && p[i] == p[j]
    ensures PathFrom(cfgs, n, q) && |q| >= size
    decreases size - |p|
  {
    if |p| >= size {
      q := p;
    } else {
      var r := p[..j] + p[i..];
      forall k, l | 0 <= k && l == k + 1 && l < |r| ensures r[l] in Refs(cfgs, r[k]) {
        if l < j {
        } else if l == j {
          assert p[j] in Refs(cfgs, p[j - 1]);
        } else {
          assert p[l - j + i] in Refs(cfgs, p[k - j + i]);
        }
      }
      q := CyclesPump(cfgs, n, r, j, j + (j - i), size);
    }
  }

  /** An answer does not change when more nested calls are allowed. */
  lemma {:induction false} MoreFuel(cfgs: Routers, n: string, fuel: nat, more: nat)
    requires SupportsHttp(cfgs, n, fuel).Some? && fuel <= more
    ensures SupportsHttp(cfgs, n, more) == SupportsHttp(cfgs, n, fuel)
    decreases fuel, 1, 0
  {
    if n in cfgs && !cfgs[n].Http? && !cfgs[n].NullHttp? {
      MoreFuelForAny(cfgs, ChildNames(cfgs[n]), fuel - 1, more - 1);
    }
  }

  lemma {:induction false} MoreFuelForAny(cfgs: Routers, names: seq<string>, fuel: nat, more: nat)
    requires AnySupportsHttp(cfgs, names, fuel).Some? && fuel <= more
    ensures AnySupportsHttp(cfgs, names, more) == AnySupportsHttp(cfgs, names, fuel)
    decreases fuel, 2, |names|
  {
    if names != [] {
      MoreFuel(cfgs, names[0], fuel, more);
      if SupportsHttp(cfgs, names[0], fuel) == Some(false) {
        MoreFuelForAny(cfgs, names[1..], fuel, more);
      }
    }
  }

  /** Nothing below `n` can keep the search from moving on, and nothing below it ends the search. */
  ghost predicate Quiet(cfgs: Routers, n: string) {
    Acyclic(cfgs, n) && !HttpReachable(cfgs, n)
  }

  lemma QuietIsNo(cfgs: Routers, n: string, fuel: nat)
    requires Quiet(cfgs, n) && fuel > |cfgs|
    ensures SupportsHttp(cfgs, n, fuel) == Some(false)
  {
    assert PathFrom(cfgs, n, [n]);
    SupportsDecides(cfgs, n, [n], fuel);
  }

  lemma NoIsQuiet(cfgs: Routers, n: string, fuel: nat)
    requires SupportsHttp(cfgs, n, fuel) == Some(false)
    ensures Quiet(cfgs, n)
  {
    forall p | PathFrom(cfgs, n, p) ensures Distinct(p) {
      if i, j :| 0 <= i < j < |p| && p[i] == p[j] {
        var q := CyclesPump(cfgs, n, p, i, j, fuel + 1);
        FalseBoundsPaths(cfgs, n, fuel, q);
        assert false;
      }
    }
    assert PathFrom(cfgs, n, [n]);
    var enough := fuel + |cfgs| + 1;
    SupportsDecides(cfgs, n, [n], enough);
    MoreFuel(cfgs, n, fuel, enough);
  }

  /**
   A chain of child positions that leads from `n` to an HTTP router, past quiet
   children only: the way a depth-first search finds its first HTTP router.
   */
  ghost predicate Leads(cfgs: Routers, n: string, chain: seq<nat>)
    decreases |chain|
  {
    && n in cfgs
    && if chain == [] then cfgs[n].Http? || cfgs[n].NullHttp?
       else
         var names := ChildNames(cfgs[n]);
         && !cfgs[n].Http? && !cfgs[n].NullHttp? && chain[0] < |names|
         && (forall j :: 0 <= j < chain[0] ==> Quiet(cfgs, names[j]))
         && Leads(cfgs, names[chain[0]], chain[1..])
  }

  /** The search answers yes at the first position whose child does, if all before it answer no. */
  lemma {:induction false} AnyAtFirstYes(cfgs: Routers, names: seq<string>, i: nat, fuel: nat)
    requires i < |names| && SupportsHttp(cfgs, names[i], fuel) == Some(true)
    requires forall j :: 0 <= j < i ==> SupportsHttp(cfgs, names[j], fuel) == Some(false)
    ensures AnySupportsHttp(cfgs, names, fuel) == Some(true)
    decreases i
  {
    if i > 0 {
      forall j | 0 <= j < i - 1 ensures SupportsHttp(cfgs, names[1..][j], fuel) == Some(false) {
        assert names[1..][j] == names[j + 1];
      }
      AnyAtFirstYes(cfgs, names[1..], i - 1, fuel);
    }
  }

  lemma {:induction false} FirstYes(cfgs: Routers, names: seq<string>, fuel: nat) returns (i: nat)
    requires AnySupportsHttp(cfgs, names, fuel) == Some(true)
    ensures i < |names| && SupportsHttp(cfgs, names[i], fuel) == Some(true)
    ensures forall j :: 0 <= j < i ==> SupportsHttp(cfgs, names[j], fuel) == Some(false)
    decreases |names|
  {
    i := 0;
    if SupportsHttp(cfgs, names[0], fuel) == Some(false) {
      var k := FirstYes(cfgs, names[1..], fuel);
      i := k + 1;
      forall j | 0 < j < i ensures SupportsHttp(cfgs, names[j], fuel) == Some(false) {
        assert names[j] == names[1..][j - 1];
      }
    }
  }

  lemma {:induction false} YesLeads(cfgs: Routers, n: string, fuel: nat) returns (chain: seq<nat>)
    requires SupportsHttp(cfgs, n, fuel) == Some(true)
    ensures Leads(cfgs, n, chain)
    decreases fuel
  {
    chain := [];
    if !cfgs[n].Http? && !cfgs[n].NullHttp? {
      var names := ChildNames(cfgs[n]);
      var i := FirstYes(cfgs, names, fuel - 1);
      var rest := YesLeads(cfgs, names[i], fuel - 1);
      forall j | 0 <= j < i ensures Quiet(cfgs, names[j]) {
        NoIsQuiet(cfgs, names[j], fuel - 1);
      }
      chain := [i] + rest;
      assert chain[1..] == rest;
    }
  }

  lemma {:induction false} LeadsYes(cfgs: Routers, n: string, chain: seq<nat>) returns (fuel: nat)
    requires Leads(cfgs, n, chain)
    ensures SupportsHttp(cfgs, n, fuel) == Some(true)
    decreases |chain|
  {
    fuel := 1;
    if chain != [] {
      var names, i := ChildNames(cfgs[n]), chain[0];
      var below := LeadsYes(cfgs, names[i], chain[1..]);
      var enough := below + |cfgs| + 1;
      MoreFuel(cfgs, names[i], below, enough);
      forall j | 0 <= j < i ensures SupportsHttp(cfgs, names[j], enough) == Some(false) {
        QuietIsNo(cfgs, names[j], enough);
      }
      AnyAtFirstYes(cfgs, names, i, enough);
      fuel := enough + 1;
    }
  }

  /** The recursion returns the answer, given enough nested calls. */
  ghost predicate Answers(cfgs: Routers, n: string, answer: bool) {
    exists fuel: nat :: SupportsHttp(cfgs, n, fuel) == Some(answer)
  }

  ghost predicate FindsHttp(cfgs: Routers, n: string) {
    exists chain :: Leads(cfgs, n, chain)
  }

  /**
   Exactly when the unguarded recursion ever returns, on any configuration: with
   no when nothing reachable is HTTP and nothing is cyclic, and with yes when a chain
   leads to an HTTP router past children that have neither.
   */
  lemma TerminatesIff(cfgs: Routers, n: string)
    ensures Answers(cfgs, n, false) <==> Quiet(cfgs, n)
    ensures Answers(cfgs, n, true) <==> FindsHttp(cfgs, n)
    ensures (exists fuel: nat :: SupportsHttp(cfgs, n, fuel).Some?) <==> Quiet(cfgs, n) || FindsHttp(cfgs, n)
  {
    if Quiet(cfgs, n) {
      QuietIsNo(cfgs, n, |cfgs| + 1);
    }
    if Answers(cfgs, n, false) {
      var fuel: nat :| SupportsHttp(cfgs, n, fuel) == Some(false);
      NoIsQuiet(cfgs, n, fuel);
    }
    if FindsHttp(cfgs, n) {
      var chain :| Leads(cfgs, n, chain);
      var fuel := LeadsYes(cfgs, n, chain);
    }
    if Answers(cfgs, n, true) {
      var fuel: nat :| SupportsHttp(cfgs, n, fuel) == Some(true);
      var chain := YesLeads(cfgs, n, fuel);
    }
    if fuel: nat :| SupportsHttp(cfgs, n, fuel).Some? {
      var answer := SupportsHttp(cfgs, n, fuel).value;
      assert Answers(cfgs, n, answer);
    }
  }

  /** A router `a` that refers to itself, and to an HTTP router before or after that. */
  function SelfAndHttp(httpFirst: bool): Routers {
    var a, h := Child("a", 0, false, None), Child("h", 0, false, None);
    map["a" := Composite(Sequential, if httpFirst then [h, a] else [a, h]), "h" := Http("x", true)]
  }

  /** With the cycle first the recursion never returns, although an HTTP router is reachable. */
  lemma {:induction false} CycleFirstDiverges(fuel: nat)
    ensures HttpReachable(SelfAndHttp(false), "a")
    ensures SupportsHttp(SelfAndHttp(false), "a", fuel) == None
  {
    var cfgs := SelfAndHttp(false);
    assert ChildNames(cfgs["a"]) == ["a", "h"];
    assert PathFrom(cfgs, "a", ["a", "h"]);
    assert Last(["a", "h"]) == "h";
    if fuel > 0 {
      CycleFirstDiverges(fuel - 1);
      assert AnySupportsHttp(cfgs, ["a", "h"], fuel - 1) == None;
    }
  }

  /** With the HTTP router first it answers yes, although the graph cannot be built. */
  lemma HttpFirstAnswers()
    ensures SupportsHttp(SelfAndHttp(true), "a", 2) == Some(true)
    ensures !Buildable(SelfAndHttp(true), "a")
  {
    var cfgs := SelfAndHttp(true);
    assert ChildNames(cfgs["a"]) == ["h", "a"];
    AnyAtFirstYes(cfgs, ["h", "a"], 0, 1);
    var p := ["a", "a"];
    assert p[1] in Refs(cfgs, p[0]);
    assert PathFrom(cfgs, "a", p) && p[0] == p[1];
  }

  /** A yes is always right. */
  lemma {:induction false} SupportsSound(cfgs: Routers, n: string, fuel: nat)
    requires SupportsHttp(cfgs, n, fuel) == Some(true)
    ensures HttpReachable(cfgs, n)
    decreases fuel, 1, 0
  {
    if cfgs[n].Http? || cfgs[n].NullHttp? {
      assert PathFrom(cfgs, n, [n]);
    } else {
      var m := AnySupportsSound(cfgs, ChildNames(cfgs[n]), fuel - 1);
      HttpBelow(cfgs, n);
    }
  }

  lemma {:induction false} AnySupportsSound(cfgs: Routers, names: seq<string>, fuel: nat) returns (m: string)
    requires AnySupportsHttp(cfgs, names, fuel) == Some(true)
    ensures m in names && HttpReachable(cfgs, m)
    decreases fuel, 2, |names|
  {
    m := names[0];
    if SupportsHttp(cfgs, m, fuel) == Some(false) {
      m := AnySupportsSound(cfgs, names[1..], fuel);
    } else {
      SupportsSound(cfgs, m, fuel);
    }
  }

  /** The provide method's router, if any, is asked. */
  function HasHttpProvider(cfgs: Routers, methods: map<string, string>, fuel: nat): Option<bool> {
    if |cfgs| == 0 || PROVIDE !in methods then Some(false)
    else SupportsHttp(cfgs, methods[PROVIDE], fuel)
  }

  /** Exactly when the question for a provider is answered, on any configuration, and how. */
  lemma ProviderAnswersIff(cfgs: Routers, methods: map<string, string>)
    ensures (exists fuel: nat :: HasHttpProvider(cfgs, methods, fuel) == Some(false)) <==>
            "provide" !in methods || Quiet(cfgs, methods["provide"])
    ensures (exists fuel: nat :: HasHttpProvider(cfgs, methods, fuel) == Some(true)) <==>
            "provide" in methods && FindsHttp(cfgs, methods["provide"])
  {
    if "provide" !in methods {
      assert HasHttpProvider(cfgs, methods, 0) == Some(false);
      assert forall fuel: nat :: HasHttpProvider(cfgs, methods, fuel) == Some(false);
    } else {
      var n := methods["provide"];
      TerminatesIff(cfgs, n);
      if cfgs == map[] {
        assert SupportsHttp(cfgs, n, 1) == Some(false);
        assert HasHttpProvider(cfgs, methods, 0) == Some(false);
      } else {
        assert |cfgs| > 0;
        assert forall fuel: nat :: HasHttpProvider(cfgs, methods, fuel) == SupportsHttp(cfgs, n, fuel);
        if Quiet(cfgs, n) {
          var fuel: nat :| SupportsHttp(cfgs, n, fuel) == Some(false);
          assert HasHttpProvider(cfgs, methods, fuel) == Some(false);
        }
        if FindsHttp(cfgs, n) {
          var fuel: nat :| SupportsHttp(cfgs, n, fuel) == Some(true);
          assert HasHttpProvider(cfgs, methods, fuel) == Some(true);
        }
      }
    }
  }

  /* ----- Methods ----- */

  const PROVIDE := "provide"
  const FIND_PROVIDERS := "find-providers"
  const FIND_PEERS := "find-peers"
  const GET_IPNS := "get-ipns"
  const PUT_IPNS := "put-ipns"
  const METHOD_NAMES: seq<string> := [PROVIDE, FIND_PEERS, FIND_PROVIDERS, GET_IPNS, PUT_IPNS]

  lemma MethodNamesAre(k: string)
    ensures k in METHOD_NAMES <==>
            k in ["provide", "find-peers", "find-providers", "get-ipns", "put-ipns"]
  {
  }

  datatype MethodsError = Missing(name: string) | Unsupported(name: string)

  /** Some order in which a Go map may be ranged over. */
  ghost predicate Ranges(order: seq<string>, keys: set<string>) {
    Distinct(order) && forall k :: k in order <==> k in keys
  }

  /** The method table must have the five methods and nothing else. */
  method CheckMethods(methods: map<string, string>, order: seq<string>) returns (err: Option<MethodsError>)
    requires Ranges(order, methods.Keys)
    ensures err.None? <==> forall k :: k in methods <==> k in METHOD_NAMES
    ensures err.Some? && err.value.Missing? ==> err.value.name in METHOD_NAMES && err.value.name !in methods
    ensures err.Some? && err.value.Unsupported? ==> err.value.name in methods && err.value.name !in METHOD_NAMES
  {
    for i := 0 to |METHOD_NAMES|
      invariant forall j :: 0 <= j < i ==> METHOD_NAMES[j] in methods
    {
      if METHOD_NAMES[i] !in methods {
        return Some(Missing(METHOD_NAMES[i]));
      }
    }
    for i := 0 to |order|
      invariant forall j :: 0 <= j < i ==> order[j] in METHOD_NAMES
    {
      var k, seen, j := order[i], false, 0;
      while j < |METHOD_NAMES| && !seen
        invariant 0 <= j <= |METHOD_NAMES|
        invariant seen <==> k in METHOD_NAMES[..j]
      {
        seen := METHOD_NAMES[j] == k;
        j := j + 1;
      }
      if !seen {
        assert METHOD_NAMES[..j] == METHOD_NAMES && k in order;
        return Some(Unsupported(k));
      }
    }
    return None;
  }
}
