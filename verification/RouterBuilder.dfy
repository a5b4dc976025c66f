/**
 Building the routers a configuration describes: a depth-first search that
 remembers the routers it has created, and the names it has visited, which are
 never forgotten while one method's router is built.
 */
module RouterBuilder {
  import opened Sequences
  import opened RouterConfig
  import opened Wrappers

  /** A built router. `id` counts creations, so it tells router objects apart. */
  datatype Routing =
    | HttpRouting(id: nat, endpoint: string)
    | DhtRouting(id: nat)
    | Composed(id: nat, kind: Kind, parts: seq<Part>)

  /** One router of a composition; only parallel ones do not wait for a search and may start late. */
  datatype Part = Part(router: Routing, ignoreErrors: bool, doNotWait: bool, timeout: int, executeAfter: int)

  datatype BuildError =
    | DependencyLoop(name: string)
    | NotConfigured(name: string)
    | CannotBuild(name: string)
    | BadMethods(methodsError: MethodsError)

  /** Sequential composition has no delayed start. */
  function PartOf(kind: Kind, c: Child, router: Routing): Part {
    var delay := if kind == Parallel && c.executeAfter.Some? then c.executeAfter.value else 0;
    Part(router, c.ignoreErrors, kind == Parallel, c.timeout, delay)
  }

  /** The named router really has the fault. */
  predicate HasFault(cfgs: Routers, e: BuildError) {
    match e
    case DependencyLoop(_) => true
    case NotConfigured(m) => m !in cfgs
    case CannotBuild(m) => m in cfgs && !WellFormed(cfgs[m])
    case BadMethods(_) => false
  }

  /** The chain of references leads to the named router, for a loop coming back to it. */
  ghost predicate Shows(cfgs: Routers, n: string, e: BuildError, p: seq<string>) {
    && PathFrom(cfgs, n, p) && !e.BadMethods? && Last(p) == e.name
    && (e.DependencyLoop? ==> exists i :: 0 <= i < |p| - 1 && p[i] == e.name)
  }

  /** The error names a router that is reachable from `n` and really has that fault. */
  ghost predicate Explains(cfgs: Routers, n: string, e: BuildError) {
    HasFault(cfgs, e) && exists p :: Shows(cfgs, n, e, p)
  }

  lemma ExplainedIsNotBuildable(cfgs: Routers, n: string, e: BuildError)
    requires Explains(cfgs, n, e)
    ensures !Buildable(cfgs, n)
  {
  }

  /** What is wrong below a child is wrong below its parent. */
  lemma ExplainsParent(cfgs: Routers, n: string, m: string, e: BuildError)
    requires m in Refs(cfgs, n) && Explains(cfgs, m, e)
    ensures Explains(cfgs, n, e)
  {
    var p :| Shows(cfgs, m, e, p);
    PathPrepends(cfgs, n, p);
    var q := [n] + p;
    if e.DependencyLoop? {
      var i :| 0 <= i < |p| - 1 && p[i] == e.name;
      assert q[i + 1] == e.name;
    }
    assert Shows(cfgs, n, e, q);
  }

  /** Every router in `order` is well-formed and refers only to routers earlier in `order`. */
  ghost predicate CreationOrder(cfgs: Routers, order: seq<string>) {
    && Distinct(order)
    && forall i :: 0 <= i < |order| ==>
         && order[i] in cfgs && WellFormed(cfgs[order[i]])
         && forall m :: m in Refs(cfgs, order[i]) ==> m in order[..i]
  }

  /** Along a reference chain the creation order strictly falls. */
  lemma {:induction false} PathsFallInOrder(cfgs: Routers, order: seq<string>, i: nat, p: seq<string>)
    requires CreationOrder(cfgs, order) && i < |order| && PathFrom(cfgs, order[i], p)
    ensures Distinct(p) && forall k :: 0 <= k < |p| ==> p[k] in order[..i + 1]
    decreases |p|
  {
    if |p| > 1 {
      assert p[1] in Refs(cfgs, p[0]);
      var j :| 0 <= j < i && order[..i][j] == p[1];
      PathsFallInOrder(cfgs, order, j, p[1..]);
      forall k | 0 < k < |p| ensures p[k] in order[..i] {
        assert p[k] == p[1..][k - 1];
        var l :| 0 <= l < j + 1 && order[..j + 1][l] == p[k];
        assert order[..i][l] == p[k];
      }
      forall k, l | 0 <= k < l < |p| ensures p[k] != p[l] {
        if k == 0 {
          var x :| 0 <= x < i && order[..i][x] == p[l];
        } else {
          assert p[1..][k - 1] != p[1..][l - 1];
        }
      }
    } else {
      assert p[0] == order[..i + 1][i];
    }
  }

  lemma CreatedIsBuildable(cfgs: Routers, order: seq<string>, n: string)
    requires CreationOrder(cfgs, order) && n in order
    ensures Buildable(cfgs, n)
  {
    var i :| 0 <= i < |order| && order[i] == n;
    forall p | PathFrom(cfgs, n, p) ensures Last(p) in cfgs && WellFormed(cfgs[Last(p)]) && Distinct(p) {
      PathsFallInOrder(cfgs, order, i, p);
      var k :| 0 <= k < i + 1 && order[..i + 1][k] == p[|p| - 1];
    }
  }

  /** The error explains why the router of some method cannot be built. */
  ghost predicate ExplainsSome(cfgs: Routers, methods: map<string, string>, e: BuildError) {
    exists k :: k in methods && Explains(cfgs, methods[k], e)
  }

  ghost predicate AllBuildable(cfgs: Routers, methods: map<string, string>) {
    forall k :: k in methods ==> Buildable(cfgs, methods[k])
  }

  lemma AllCreatedAreBuildable(cfgs: Routers, order: seq<string>, methods: map<string, string>)
    requires CreationOrder(cfgs, order) && forall k :: k in methods ==> methods[k] in order
    ensures AllBuildable(cfgs, methods)
  {
    forall k | k in methods ensures Buildable(cfgs, methods[k]) {
      CreatedIsBuildable(cfgs, order, methods[k]);
    }
  }

  /** The parts made of the first children, each with the router created for it. */
  ghost predicate PartsFor(kind: Kind, children: seq<Child>, parts: seq<Part>, created: map<string, Routing>) {
    && |parts| <= |children|
    && forall j :: 0 <= j < |parts| ==>
         children[j].name in created && parts[j] == PartOf(kind, children[j], created[children[j].name])
  }

  lemma ExtendParts(kind: Kind, children: seq<Child>, parts: seq<Part>,
                    before: map<string, Routing>, created: map<string, Routing>)
    requires PartsFor(kind, children, parts, before) && |parts| < |children| && children[|parts|].name in created
    requires forall n :: n in before ==> n in created && created[n] == before[n]
    ensures var c := children[|parts|];
            PartsFor(kind, children, parts + [PartOf(kind, c, created[c.name])], created)
  {
  }

  /** `r` is what the configuration `cfg` asks for, composed from the given routers. */
  ghost predicate Realizes(cfg: Router, r: Routing, created: map<string, Routing>) {
    match cfg
    case Http(endpoint, _) => r.HttpRouting? && r.endpoint == endpoint
    case Dht(_) => r.DhtRouting?
    case Composite(kind, children) =>
      r.Composed? && r.kind == kind && |r.parts| == |children| && PartsFor(kind, children, r.parts, created)
    case _ => false
  }

  /** The created routers, in creation order, are each what the configuration asks for. */
  ghost predicate CreatedOk(cfgs: Routers, order: seq<string>, created: map<string, Routing>) {
    && CreationOrder(cfgs, order)
    && (forall n :: n in created <==> n in order)
    && forall i :: 0 <= i < |order| ==>
         created[order[i]].id == i && Realizes(cfgs[order[i]], created[order[i]], created)
  }

  /** A created router is made as its configuration says, setting by setting. */
  lemma CreatedAsConfigured(cfgs: Routers, order: seq<string>, created: map<string, Routing>, n: string)
    requires CreatedOk(cfgs, order, created) && n in created
    ensures n in cfgs && MadeAs(cfgs[n], created[n], created)
  {
    var i :| 0 <= i < |order| && order[i] == n;
    var cfg, r := cfgs[n], created[n];
    if cfg.Composite? {
      forall j | 0 <= j < |cfg.children| ensures PartMadeAs(cfg.kind, cfg.children[j], r.parts[j], created) {}
    }
  }

  ghost predicate MadeAs(cfg: Router, r: Routing, created: map<string, Routing>) {
    && (cfg.Http? ==> r.HttpRouting? && r.endpoint == cfg.endpoint)
    && (cfg.Dht? ==> r.DhtRouting?)
    && (cfg.Composite? ==>
          && r.Composed? && r.kind == cfg.kind && |r.parts| == |cfg.children|
          && forall j :: 0 <= j < |cfg.children| ==> PartMadeAs(cfg.kind, cfg.children[j], r.parts[j], created))
  }

  /** Each setting of a part is that of the child, and a delay is only for parallel routers. */
  ghost predicate PartMadeAs(kind: Kind, c: Child, p: Part, created: map<string, Routing>) {
    && c.name in created && p.router == created[c.name]
    && p.ignoreErrors == c.ignoreErrors
    && p.timeout == c.timeout
    && (kind == Parallel && c.executeAfter.Some? ==> p.executeAfter == c.executeAfter.value)
    && (kind == Sequential || c.executeAfter.None? ==> p.executeAfter == 0)
    && (p.doNotWait <==> kind == Parallel)
  }

  lemma CreateOne(cfgs: Routers, order: seq<string>, created: map<string, Routing>, n: string, r: Routing)
    requires CreatedOk(cfgs, order, created)
    requires n in cfgs && WellFormed(cfgs[n]) && n !in created
    requires forall m :: m in Refs(cfgs, n) ==> m in created
    requires r.id == |order| && Realizes(cfgs[n], r, created)
    ensures CreatedOk(cfgs, order + [n], created[n := r])
  {
    var order', created' := order + [n], created[n := r];
    forall i | 0 <= i < |order'|
      ensures order'[i] in cfgs && WellFormed(cfgs[order'[i]])
      ensures forall m :: m in Refs(cfgs, order'[i]) ==> m in order'[..i]
      ensures created'[order'[i]].id == i && Realizes(cfgs[order'[i]], created'[order'[i]], created')
    {
      assert order'[..i] == order[..i];
      if i < |order| {
        assert order[i] != n;
        forall c | cfgs[order[i]].Composite? && c in cfgs[order[i]].children ensures c.name != n {}
      } else {
        assert order[..i] == order;
      }
    }
  }

  /** One router per routing method. */
  datatype Composer = Composer(
    putValue: Option<Routing>,
    getValue: Option<Routing>,
    findPeers: Option<Routing>,
    findProviders: Option<Routing>,
    provide: Option<Routing>)

  function Slot(c: Composer, mn: string): Option<Routing> {
    if mn == PUT_IPNS then c.putValue
    else if mn == GET_IPNS then c.getValue
    else if mn == FIND_PEERS then c.findPeers
    else if mn == FIND_PROVIDERS then c.findProviders
    else if mn == PROVIDE then c.provide
    else None
  }

  function SetSlot(c: Composer, mn: string, r: Routing): Composer {
    if mn == PUT_IPNS then c.(putValue := Some(r))
    else if mn == GET_IPNS then c.(getValue := Some(r))
    else if mn == FIND_PEERS then c.(findPeers := Some(r))
    else if mn == FIND_PROVIDERS then c.(findProviders := Some(r))
    else if mn == PROVIDE then c.(provide := Some(r))
    else c
  }

  /** The slots of the methods in `done` hold the created routers. */
  ghost predicate Filled(c: Composer, methods: map<string, string>, created: map<string, Routing>, done: seq<string>) {
    forall k :: k in done ==> k in methods && methods[k] in created && Slot(c, k) == Some(created[methods[k]])
  }

  ghost predicate HoldsFor(
    slot: Option<Routing>, methods: map<string, string>, k: string, created: map<string, Routing>)
  {
    k in methods && methods[k] in created && slot == Some(created[methods[k]])
  }

  /** Each of the five slots holds the router created for the name that its method gives. */
  ghost predicate HoldsAll(c: Composer, methods: map<string, string>, created: map<string, Routing>) {
    && HoldsFor(c.putValue, methods, "put-ipns", created)
    && HoldsFor(c.getValue, methods, "get-ipns", created)
    && HoldsFor(c.findPeers, methods, "find-peers", created)
    && HoldsFor(c.findProviders, methods, "find-providers", created)
    && HoldsFor(c.provide, methods, "provide", created)
  }

  lemma FilledHoldsAll(c: Composer, methods: map<string, string>, created: map<string, Routing>, done: seq<string>)
    requires Filled(c, methods, created, done)
    requires forall k :: k in METHOD_NAMES ==> k in done
    ensures HoldsAll(c, methods, created)
  {
    assert METHOD_NAMES[0] in done && METHOD_NAMES[1] in done && METHOD_NAMES[2] in done;
    assert METHOD_NAMES[3] in done && METHOD_NAMES[4] in done;
  }

  lemma FillOne(c: Composer, methods: map<string, string>, before: map<string, Routing>, created: map<string, Routing>,
                done: seq<string>, mn: string)
    requires Filled(c, methods, before, done)
    requires forall n :: n in before ==> n in created && created[n] == before[n]
    requires mn in METHOD_NAMES && mn in methods && methods[mn] in created
    ensures Filled(SetSlot(c, mn, created[methods[mn]]), methods, created, done + [mn])
  {
  }

  class Builder {
    const cfgs: Routers
    var visited: set<string>
    var created: map<string, Routing>
    ghost var order: seq<string>

    constructor (cfgs: Routers)
      ensures this.cfgs == cfgs && Valid() && created == map[] && visited == {}
    {
      this.cfgs, visited, created, order := cfgs, {}, map[], [];
    }

    ghost predicate Valid()
      reads this
    {
      CreatedOk(cfgs, order, created)
    }

    /** Visited but not created: exactly the routers on the current stack. */
    ghost predicate OnStack(stack: seq<string>)
      reads this
    {
      forall n :: n in visited && n !in created <==> n in stack
    }

    /** The chain of references that led to `n`. */
    ghost predicate LeadsTo(stack: seq<string>, n: string) {
      stack == [] || IsPath(cfgs, stack + [n])
    }

    /** What was created before still is. */
    ghost predicate Grows(before: map<string, Routing>)
      reads this
    {
      forall n :: n in before ==> n in created && created[n] == before[n]
    }

    /**
     Builds the router named `n`. It terminates on every configuration; it
     succeeds only if the router is created, and an error always names a real
     fault, so a router shared between two parents is never taken for a loop.
     */
    method Parse(n: string, ghost stack: seq<string>) returns (r: Result<Routing, BuildError>)
      requires Valid() && OnStack(stack) && LeadsTo(stack, n)
      modifies this
      ensures Valid() && Grows(old(created)) && old(visited) <= visited
      ensures r.Ok? ==> OnStack(stack) && n in created && r.value == created[n]
      ensures r.Err? ==> Explains(cfgs, n, r.error)
      decreases cfgs.Keys - visited, 1
    {
      if n in created {
        return Ok(created[n]);
      }
      if n in visited {
        LoopIsReal(stack, n);
        return Err(DependencyLoop(n));
      }
      assert Shows(cfgs, n, NotConfigured(n), [n]) && Shows(cfgs, n, CannotBuild(n), [n]);
      visited := visited + {n};
      if n !in cfgs {
        return Err(NotConfigured(n));
      }
      var router: Routing;
      match cfgs[n] {
        case Http(endpoint, connects) =>
          if endpoint == "" || !connects {
            return Err(CannotBuild(n));
          }
          router := HttpRouting(|created|, endpoint);
        case Dht(builds) =>
          if !builds {
            return Err(CannotBuild(n));
          }
          router := DhtRouting(|created|);
        case NullHttp => return Err(CannotBuild(n));
        case NullComposite(_) => return Err(CannotBuild(n));
        case UnknownType(_) => return Err(CannotBuild(n));
        case Composite(kind, children) =>
          var parts := ParseChildren(n, kind, children, stack + [n]);
          if parts.Err? {
            return Err(parts.error);
          }
          router := Composed(|created|, kind, parts.value);
      }
      CreatedCount();
      assert n in stack + [n];
      CreateOne(cfgs, order, created, n, router);
      created := created[n := router];
      order := order + [n];
      r := Ok(router);
    }

    lemma LoopIsReal(stack: seq<string>, n: string)
      requires OnStack(stack) && LeadsTo(stack, n)
      requires n in visited && n !in created
      ensures Explains(cfgs, n, DependencyLoop(n))
    {
      var i :| 0 <= i < |stack| && stack[i] == n;
      var p := stack[i..] + [n];
      forall k, l | 0 <= k && l == k + 1 && l < |p| ensures p[l] in Refs(cfgs, p[k]) {
        assert p[k] == (stack + [n])[i + k] && p[l] == (stack + [n])[i + l];
      }
      assert p[0] == n;
      assert Shows(cfgs, n, DependencyLoop(n), p);
    }

    /** There are as many created routers as there were creations. */
    lemma CreatedCount()
      requires Valid()
      ensures |created| == |order|
    {
      DistinctSize(order, created.Keys);
    }

    /** The loop over the children of a composite router, in configuration order. */
    method ParseChildren(n: string, kind: Kind, children: seq<Child>, ghost stack: seq<string>)
      returns (r: Result<seq<Part>, BuildError>)
      requires Valid() && OnStack(stack) && stack != [] && Last(stack) == n
      requires n in cfgs && cfgs[n] == Composite(kind, children)
      requires IsPath(cfgs, stack)
      modifies this
      ensures Valid() && Grows(old(created)) && old(visited) <= visited
      ensures r.Ok? ==> OnStack(stack) && |r.value| == |children| && PartsFor(kind, children, r.value, created)
      ensures r.Ok? ==> forall j :: 0 <= j < |children| ==> PartMadeAs(kind, children[j], r.value[j], created)
      ensures r.Err? ==> Explains(cfgs, n, r.error)
      decreases cfgs.Keys - visited, 2
    {
      var parts := [];
      for i := 0 to |children|
        invariant Valid() && Grows(old(created)) && old(visited) <= visited && OnStack(stack)
        invariant |parts| == i && PartsFor(kind, children, parts, created)
      {
        var m := children[i].name;
        assert ChildNames(cfgs[n])[i] == m;
        PathExtends(cfgs, stack, m);
        ghost var before := created;
        var ri := Parse(m, stack);
        if ri.Err? {
          ExplainsParent(cfgs, n, m, ri.error);
          return Err(ri.error);
        }
        ExtendParts(kind, children, parts, before, created);
        parts := parts + [PartOf(kind, children[i], ri.value)];
      }
      r := Ok(parts);
    }

    /**
     Builds the router of one method, starting with no name visited. It succeeds
     exactly when everything reachable from the name is defined and well-formed, without a cycle.
     */
    method ParseMethod(n: string) returns (r: Result<Routing, BuildError>)
      requires Valid()
      modifies this
      ensures Valid() && Grows(old(created))
      ensures r.Ok? <==> Buildable(cfgs, n)
      ensures r.Ok? ==> n in created && r.value == created[n]
      ensures r.Err? ==> Explains(cfgs, n, r.error)
    {
      visited := {};
      r := Parse(n, []);
      if r.Ok? {
        CreatedIsBuildable(cfgs, order, n);
      } else {
        ExplainedIsNotBuildable(cfgs, n, r.error);
      }
    }

    /** Builds the router of one method and puts it in its slot. */
    method BuildSlot(composer: Composer, methods: map<string, string>, mn: string, ghost done: seq<string>)
      returns (r: Result<Composer, BuildError>)
      requires Valid() && mn in methods && mn in METHOD_NAMES && Filled(composer, methods, created, done)
      modifies this
      ensures Valid()
      ensures r.Ok? ==> Filled(r.value, methods, created, done + [mn])
      ensures r.Err? ==> ExplainsSome(cfgs, methods, r.error)
    {
      ghost var before := created;
      var router := ParseMethod(methods[mn]);
      if router.Err? {
        return Err(router.error);
      }
      FillOne(composer, methods, before, created, done, mn);
      r := Ok(SetSlot(composer, mn, router.value));
    }

    /** The loop over the methods. */
    method BuildSlots(methods: map<string, string>, range: seq<string>) returns (r: Result<Composer, BuildError>)
      requires Valid() && Ranges(range, methods.Keys)
      requires forall k :: k in methods ==> k in METHOD_NAMES
      modifies this
      ensures Valid()
      ensures r.Ok? ==> Filled(r.value, methods, created, range)
      ensures r.Err? ==> ExplainsSome(cfgs, methods, r.error)
    {
      r := Ok(Composer(None, None, None, None, None));
      for i := 0 to |range|
        invariant Valid() && r.Ok? && Filled(r.value, methods, created, range[..i])
      {
        assert range[i] in methods.Keys;
        r := BuildSlot(r.value, methods, range[i], range[..i]);
        if r.Err? {
          return;
        }
        assert range[..i + 1] == range[..i] + [range[i]];
      }
      assert range[..|range|] == range;
    }

    /**
     Builds one router per method, ranging over the methods in any order. Success
     depends only on the configuration: it comes exactly when the method table is
     complete and every router it names can be built, and fills all five slots.
     */
    method ParseAll(methods: map<string, string>, range: seq<string>) returns (r: Result<Composer, BuildError>)
      requires Valid() && created == map[] && Ranges(range, methods.Keys)
      modifies this
      ensures Valid()
      ensures r.Ok? <==> (forall k :: k in methods <==> k in METHOD_NAMES) && AllBuildable(cfgs, methods)
      ensures r.Ok? ==> HoldsAll(r.value, methods, created)
      ensures r.Ok? ==> forall n :: n in created ==> n in cfgs && MadeAs(cfgs[n], created[n], created)
      ensures r.Err? && !r.error.BadMethods? ==> ExplainsSome(cfgs, methods, r.error)
      ensures r.Err? && r.error.BadMethods? ==>
                var e := r.error.methodsError;
                if e.Missing? then e.name in METHOD_NAMES && e.name !in methods
                else e.name in methods && e.name !in METHOD_NAMES
    {
      var bad := CheckMethods(methods, range);
      if bad.Some? {
        return Err(BadMethods(bad.value));
      }
      r := BuildSlots(methods, range);
      if r.Ok? {
        assert forall k :: k in methods ==> k in range;
        AllCreatedAreBuildable(cfgs, order, methods);
        FilledHoldsAll(r.value, methods, created, range);
        forall n | n in created ensures n in cfgs && MadeAs(cfgs[n], created[n], created) {
          CreatedAsConfigured(cfgs, order, created, n);
        }
      } else {
        ghost var k :| k in methods && Explains(cfgs, methods[k], r.error);
        ExplainedIsNotBuildable(cfgs, methods[k], r.error);
      }
    }
  }

  /** A composite is built only from routers created before it, all the way down. */
  ghost predicate BuiltBottomUp(r: Routing) {
    r.Composed? ==> forall p :: p in r.parts ==> p.router.id < r.id && BuiltBottomUp(p.router)
  }

  lemma {:induction false} CreatedBottomUp(cfgs: Routers, order: seq<string>, created: map<string, Routing>, i: nat)
    requires CreatedOk(cfgs, order, created) && i < |order|
    ensures BuiltBottomUp(created[order[i]])
  {
    var r := created[order[i]];
    if r.Composed? {
      var children := cfgs[order[i]].children;
      forall p | p in r.parts ensures p.router.id < r.id && BuiltBottomUp(p.router) {
        var j :| 0 <= j < |r.parts| && r.parts[j] == p;
        assert children[j].name in Refs(cfgs, order[i]) by { assert ChildNames(cfgs[order[i]])[j] == children[j].name; }
        assert children[j].name in order[..i];
        var k :| 0 <= k < i && order[..i][k] == children[j].name;
        CreatedBottomUp(cfgs, order, created, k);
      }
    }
  }

  /** Two names give the same router object exactly when they are the same name. */
  lemma OneRouterPerName(cfgs: Routers, order: seq<string>, created: map<string, Routing>, a: string, b: string)
    requires CreatedOk(cfgs, order, created) && a in created && b in created
    ensures created[a].id == created[b].id <==> a == b
  {
  }

  /** On an accepted configuration, the search for an HTTP provider terminates with the right answer. */
  lemma AcceptedHttpProvider(cfgs: Routers, methods: map<string, string>, fuel: nat)
    requires "provide" in methods && Buildable(cfgs, methods["provide"]) && fuel > |cfgs|
    ensures HasHttpProvider(cfgs, methods, fuel)
         == Some(exists p :: PathFrom(cfgs, methods["provide"], p) && Last(p) in cfgs && cfgs[Last(p)].Http?)
  {
    var n := methods["provide"];
    assert PathFrom(cfgs, n, [n]);
    assert n in cfgs;
    SupportsHttpIsReachability(cfgs, n, fuel);
  }
}
