/**
 * The route registry (`mnRouteMap`) as seen by one transition: which registered instances
 * deactivate, and how the new chain's instances are looked up or created and registered.
 * The functions here specify the router's methods; the lemmas state what they guarantee.
 */
module Registry {
  import opened Wrappers
  import opened Routes
  import opened ClassResolution

  /** Every entry is stored under its own route name, has an identity below `nextId`, and no
      instance is registered under two names. */
  ghost predicate RegistryValid(registry: map<string, RouteInstance>, nextId: nat)
  {
    && (forall n :: n in registry ==> registry[n].config.name == n && registry[n].id < nextId)
    && (forall n1, n2 :: n1 in registry && n2 in registry && n1 != n2 ==> registry[n1].id != registry[n2].id)
  }

  /** Every entry of `before` is still present, unchanged, in `after`. */
  ghost predicate Extends(before: map<string, RouteInstance>, after: map<string, RouteInstance>)
  {
    forall n :: n in before ==> n in after && after[n] == before[n]
  }

  // ---------------------------------------------------------------- deactivation

  /** The registered instances of `prev[c..]`, innermost (highest index) first. */
  function Deactivation(prev: seq<Descriptor>, c: nat, registry: map<string, RouteInstance>): seq<RouteInstance>
    decreases |prev| - c
  {
    if c >= |prev| then []
    else Deactivation(prev, c + 1, registry) + (if prev[c].name in registry then [registry[prev[c].name]] else [])
  }

  /** The chain positions `Deactivation` draws from, in the same order. */
  function DeactivationIndices(prev: seq<Descriptor>, c: nat, registry: map<string, RouteInstance>): seq<nat>
    decreases |prev| - c
  {
    if c >= |prev| then []
    else DeactivationIndices(prev, c + 1, registry) + (if prev[c].name in registry then [c] else [])
  }

  /** The deactivation list holds, for the positions of `prev` from its end down to `c`, the
      registered instance of each position's name, skipping names with no entry: its positions
      strictly decrease, each lies in `[c, |prev|)` and has an entry, and every such position occurs. */
  lemma {:induction false} DeactivationOrder(prev: seq<Descriptor>, c: nat, registry: map<string, RouteInstance>)
    ensures var d, ix := Deactivation(prev, c, registry), DeactivationIndices(prev, c, registry);
            && |d| == |ix|
            && (forall k :: 0 <= k < |ix| ==> c <= ix[k] < |prev| && prev[ix[k]].name in registry && d[k] == registry[prev[ix[k]].name])
            && (forall k1, k2 :: 0 <= k1 < k2 < |ix| ==> ix[k1] > ix[k2])
            && (forall j :: c <= j < |prev| && prev[j].name in registry ==> j in ix)
  {
    DeactivationAtIndices(prev, c, registry);
    DeactivationIndicesDecrease(prev, c, registry);
    DeactivationIndicesComplete(prev, c, registry);
  }

  lemma {:induction false} DeactivationAtIndices(prev: seq<Descriptor>, c: nat, registry: map<string, RouteInstance>)
    ensures var d, ix := Deactivation(prev, c, registry), DeactivationIndices(prev, c, registry);
            && |d| == |ix|
            && (forall k :: 0 <= k < |ix| ==> c <= ix[k] < |prev| && prev[ix[k]].name in registry && d[k] == registry[prev[ix[k]].name])
    decreases |prev| - c
  {
    if c < |prev| {
      DeactivationAtIndices(prev, c + 1, registry);
    }
  }

  lemma {:induction false} DeactivationIndicesDecrease(prev: seq<Descriptor>, c: nat, registry: map<string, RouteInstance>)
    ensures var ix := DeactivationIndices(prev, c, registry);
            forall k1, k2 :: 0 <= k1 < k2 < |ix| ==> ix[k1] > ix[k2]
    decreases |prev| - c
  {
    if c < |prev| {
      DeactivationIndicesDecrease(prev, c + 1, registry);
      DeactivationAtIndices(prev, c + 1, registry);
    }
  }

  lemma {:induction false} DeactivationIndicesComplete(prev: seq<Descriptor>, c: nat, registry: map<string, RouteInstance>)
    ensures var ix := DeactivationIndices(prev, c, registry);
            forall j :: c <= j < |prev| && prev[j].name in registry ==> j in ix
    decreases |prev| - c
  {
    if c < |prev| {
      DeactivationIndicesComplete(prev, c + 1, registry);
    }
  }

  // ---------------------------------------------------------------- building the chain's instances

  /** The registry, the next free identity and the instances resolved so far. */
  datatype BuildState = BuildState(registry: map<string, RouteInstance>, nextId: nat, built: seq<RouteInstance>)

  /** A build ends with a state and, when a route could not be resolved, the error. */
  datatype BuildResult = BuildResult(state: BuildState, failure: Option<Error>)

  /** Resolve `routes[i]`: reuse its registered instance, or create one and register it. */
  function BuildStep(routes: seq<Descriptor>, i: nat, st: BuildState): BuildResult
    requires i < |routes|
  {
    var name := routes[i].name;
    if name in st.registry then BuildResult(st.(built := st.built + [st.registry[name]]), None)
    else Register(st, name, CreateMnRoute(i, routes, st.registry, st.nextId))
  }

  /** Store a created instance under `name` and append it; report why nothing was created otherwise. */
  function Register(st: BuildState, name: string, c: Creation): BuildResult
  {
    match c
    case Created(inst) => BuildResult(BuildState(st.registry[name := inst], st.nextId + 1, st.built + [inst]), None)
    case NotCreated => BuildResult(st, Some(UnableToCreateRoute(name)))
    case LoaderRejected => BuildResult(st, Some(ClassLoaderRejected(name)))
    case BaseRouteThrows => BuildResult(st, Some(BaseRouteCalled(name)))
  }

  /** Resolve `routes[..n]` in forward order, stopping at the first route that cannot be resolved. */
  function Build(routes: seq<Descriptor>, n: nat, registry: map<string, RouteInstance>, nextId: nat): BuildResult
    requires n <= |routes|
  {
    if n == 0 then BuildResult(BuildState(registry, nextId, []), None)
    else
      var r := Build(routes, n - 1, registry, nextId);
      if r.failure.Some? then r else BuildStep(routes, n - 1, r.state)
  }

  /** The names of the first `k` routes. */
  ghost function NamesOf(routes: seq<Descriptor>, k: nat): set<string>
    requires k <= |routes|
  {
    set j | 0 <= j < k :: routes[j].name
  }

  /** What a build guarantees about the registry and the instance list. */
  ghost predicate BuildGuarantees(routes: seq<Descriptor>, n: nat, registry: map<string, RouteInstance>, nextId: nat, r: BuildResult)
    requires n <= |routes|
  {
    var st := r.state;
    && Extends(registry, st.registry)
    && st.nextId >= nextId
    // the instances are the registry entries of the resolved prefix, in chain order
    && |st.built| <= n
    && (forall j :: 0 <= j < |st.built| ==> routes[j].name in st.registry && st.built[j] == st.registry[routes[j].name])
    // entries added are exactly the prefix's names, with fresh identities
    && st.registry.Keys == registry.Keys + NamesOf(routes, |st.built|)
    && (forall m :: m in st.registry && m !in registry ==> nextId <= st.registry[m].id)
    // success resolves every route; failure names the first unresolved route, which gets no entry
    && (r.failure.None? ==> |st.built| == n)
    && (r.failure.Some? ==>
          && |st.built| < n
          && routes[|st.built|].name !in st.registry
          && var c := CreateMnRoute(|st.built|, routes, st.registry, st.nextId);
             && !c.Created?
             && r.failure.value == (if c.LoaderRejected? then ClassLoaderRejected(routes[|st.built|].name)
                                    else if c.BaseRouteThrows? then BaseRouteCalled(routes[|st.built|].name)
                                    else UnableToCreateRoute(routes[|st.built|].name)))
  }

  /** Building processes the routes in forward order and yields, in the same order, one instance
      per route: a registered instance is reused, a new one is created with a fresh identity and
      registered under its route name before the next route is processed; existing entries are
      never replaced; a route that cannot be resolved ends the build with its error and no entry. */
  lemma {:induction false} BuildCorrect(routes: seq<Descriptor>, n: nat, registry: map<string, RouteInstance>, nextId: nat)
    requires n <= |routes|
    requires RegistryValid(registry, nextId)
    ensures BuildGuarantees(routes, n, registry, nextId, Build(routes, n, registry, nextId))
  {
    if n > 0 {
      BuildCorrect(routes, n - 1, registry, nextId);
      var r := Build(routes, n - 1, registry, nextId);
      if r.failure.None? {
        var name := routes[n - 1].name;
        if name in r.state.registry {
          StepReuses(routes, n, registry, nextId, r);
        } else if CreateMnRoute(n - 1, routes, r.state.registry, r.state.nextId).Created? {
          StepCreates(routes, n, registry, nextId, r, CreateMnRoute(n - 1, routes, r.state.registry, r.state.nextId));
        } else {
          StepFails(routes, n, registry, nextId, r);
        }
      }
    }
  }

  /** A registered route is reused: the registry and the next identity stay as they were. */
  lemma StepReuses(routes: seq<Descriptor>, n: nat, registry: map<string, RouteInstance>, nextId: nat, r: BuildResult)
    requires 0 < n <= |routes|
    requires BuildGuarantees(routes, n - 1, registry, nextId, r) && r.failure.None?
    requires routes[n - 1].name in r.state.registry
    ensures BuildGuarantees(routes, n, registry, nextId, BuildStep(routes, n - 1, r.state))
  {
    var st := r.state;
    var name := routes[n - 1].name;
    assert BuildStep(routes, n - 1, st) == BuildResult(st.(built := st.built + [st.registry[name]]), None);
    assert NamesOf(routes, n) == NamesOf(routes, n - 1) + {name};
    AppendMatches(routes, n, st.registry, st.built, st.registry, st.registry[name]);
  }

  /** An unregistered route that can be created gets a fresh instance, registered under its name. */
  lemma StepCreates(routes: seq<Descriptor>, n: nat, registry: map<string, RouteInstance>, nextId: nat, r: BuildResult, c: Creation)
    requires 0 < n <= |routes|
    requires BuildGuarantees(routes, n - 1, registry, nextId, r) && r.failure.None?
    requires routes[n - 1].name !in r.state.registry
    requires c.Created? && c.instance.id == r.state.nextId && c.instance.config.name == routes[n - 1].name
    ensures BuildGuarantees(routes, n, registry, nextId, Register(r.state, routes[n - 1].name, c))
  {
    var st := r.state;
    var name := routes[n - 1].name;
    var inst := c.instance;
    var reg' := st.registry[name := inst];
    assert Register(st, name, c) == BuildResult(BuildState(reg', st.nextId + 1, st.built + [inst]), None);
    assert |st.built| == n - 1;
    assert Extends(registry, reg') by {
      assert Extends(st.registry, reg');
      ExtendsTrans(registry, st.registry, reg');
    }
    assert reg'.Keys == registry.Keys + NamesOf(routes, n) by {
      assert NamesOf(routes, n) == NamesOf(routes, n - 1) + {name};
    }
    assert forall m :: m in reg' && m !in registry ==> nextId <= reg'[m].id by {
      forall m | m in reg' && m !in registry ensures nextId <= reg'[m].id {
        if m != name {
          assert m in st.registry && reg'[m] == st.registry[m];
        }
      }
    }
    assert forall j :: 0 <= j < n ==> routes[j].name in reg' && (st.built + [inst])[j] == reg'[routes[j].name] by {
      AppendMatches(routes, n, st.registry, st.built, reg', inst);
    }
  }

  lemma ExtendsTrans(a: map<string, RouteInstance>, b: map<string, RouteInstance>, c: map<string, RouteInstance>)
    requires Extends(a, b) && Extends(b, c)
    ensures Extends(a, c)
  {
  }

  /** Appending the entry of the next route keeps the list matching the (extended) registry. */
  lemma AppendMatches(routes: seq<Descriptor>, n: nat, reg: map<string, RouteInstance>, built: seq<RouteInstance>,
                      reg': map<string, RouteInstance>, x: RouteInstance)
    requires 0 < n <= |routes| && |built| == n - 1
    requires forall j :: 0 <= j < |built| ==> routes[j].name in reg && built[j] == reg[routes[j].name]
    requires Extends(reg, reg') && routes[n - 1].name in reg' && reg'[routes[n - 1].name] == x
    ensures forall j :: 0 <= j < |built| + 1 ==> routes[j].name in reg' && (built + [x])[j] == reg'[routes[j].name]
  {
    forall j | 0 <= j < |built| + 1 ensures routes[j].name in reg' && (built + [x])[j] == reg'[routes[j].name] {
      if j < n - 1 {
        assert routes[j].name in reg && (built + [x])[j] == built[j];
      }
    }
  }

  /** Building keeps the registry well formed: each created instance has a fresh identity and is
      registered under its own route name, which had no entry. */
  lemma {:induction false} BuildKeepsValid(routes: seq<Descriptor>, n: nat, registry: map<string, RouteInstance>, nextId: nat)
    requires n <= |routes|
    requires RegistryValid(registry, nextId)
    ensures var st := Build(routes, n, registry, nextId).state; RegistryValid(st.registry, st.nextId)
  {
    if n > 0 {
      BuildKeepsValid(routes, n - 1, registry, nextId);
      var r := Build(routes, n - 1, registry, nextId);
      var name := routes[n - 1].name;
      if r.failure.None? && name !in r.state.registry {
        var c := CreateMnRoute(n - 1, routes, r.state.registry, r.state.nextId);
        CreateMnRouteOutcome(n - 1, routes, r.state.registry, r.state.nextId);
        if c.Created? {
          RegisterFresh(r.state.registry, r.state.nextId, name, c.instance);
        }
      }
    }
  }

  /** Registering a fresh instance under its own, unused name keeps the registry valid. */
  lemma RegisterFresh(registry: map<string, RouteInstance>, nextId: nat, name: string, inst: RouteInstance)
    requires RegistryValid(registry, nextId)
    requires name !in registry && inst.config.name == name && inst.id == nextId
    ensures RegistryValid(registry[name := inst], nextId + 1)
  {
  }

  /** A route that cannot be resolved leaves the state as it was and reports its own name. */
  lemma StepFails(routes: seq<Descriptor>, n: nat, registry: map<string, RouteInstance>, nextId: nat, r: BuildResult)
    requires 0 < n <= |routes|
    requires BuildGuarantees(routes, n - 1, registry, nextId, r) && r.failure.None?
    requires routes[n - 1].name !in r.state.registry
    requires !CreateMnRoute(n - 1, routes, r.state.registry, r.state.nextId).Created?
    ensures BuildGuarantees(routes, n, registry, nextId, BuildStep(routes, n - 1, r.state))
  {
  }

  /** A successful build yields one instance per route, each the registry's entry for the
      route's name; the registry stays valid and keeps its old entries. */
  lemma BuiltChainMatchesRegistry(routes: seq<Descriptor>, registry: map<string, RouteInstance>, nextId: nat)
    requires RegistryValid(registry, nextId)
    ensures var r := Build(routes, |routes|, registry, nextId);
            && RegistryValid(r.state.registry, r.state.nextId)
            && Extends(registry, r.state.registry)
            && (r.failure.None? ==>
                  && |r.state.built| == |routes|
                  && forall j :: 0 <= j < |routes| ==>
                       routes[j].name in r.state.registry && r.state.built[j] == r.state.registry[routes[j].name])
  {
    BuildKeepsValid(routes, |routes|, registry, nextId);
    BuildCorrect(routes, |routes|, registry, nextId);
  }

  /** Once a route cannot be resolved, the later routes are not looked at: the build ends there. */
  lemma {:induction false} BuildStopsAtFailure(routes: seq<Descriptor>, m: nat, n: nat, registry: map<string, RouteInstance>, nextId: nat)
    requires m <= n <= |routes|
    requires Build(routes, m, registry, nextId).failure.Some?
    ensures Build(routes, n, registry, nextId) == Build(routes, m, registry, nextId)
    decreases n - m
  {
    if m < n {
      BuildStopsAtFailure(routes, m, n - 1, registry, nextId);
    }
  }

  /** A successful build yields one instance per route, configured with that route's name, and
      reuses the instance already registered under a name. */
  lemma LookupsReproduceBuild(routes: seq<Descriptor>, registry: map<string, RouteInstance>, nextId: nat)
    requires RegistryValid(registry, nextId)
    requires Build(routes, |routes|, registry, nextId).failure.None?
    ensures var st := Build(routes, |routes|, registry, nextId).state;
            && |st.built| == |routes|
            && forall j :: 0 <= j < |routes| ==>
                 st.built[j].config.name == routes[j].name && (routes[j].name in registry ==> st.built[j] == registry[routes[j].name])
  {
    BuildKeepsValid(routes, |routes|, registry, nextId);
    BuildCorrect(routes, |routes|, registry, nextId);
  }

  /** A route naming the base route class directly fails the build: the class is called as a
      loader. Behind a module's `default` export the same class is instantiated, because a
      module object is not a function. */
  lemma ExplicitBaseRouteFailsBuild(viewClass: Option<ViewClass>)
    ensures var direct := Descriptor("a", "/a", map[], RouteOptions(Some(Direct(Ctor(BaseRoute))), viewClass, None, false));
            Build([direct], 1, map[], 0) == BuildResult(BuildState(map[], 0, []), Some(BaseRouteCalled("a")))
    ensures var esm := Descriptor("a", "/a", map[], RouteOptions(Some(Direct(EsModule(BaseRoute))), viewClass, None, false));
            var r := Build([esm], 1, map[], 0);
            r.failure.None? && |r.state.built| == 1 && r.state.built[0].cls == BaseRoute
  {
    var direct := Descriptor("a", "/a", map[], RouteOptions(Some(Direct(Ctor(BaseRoute))), viewClass, None, false));
    var esm := Descriptor("a", "/a", map[], RouteOptions(Some(Direct(EsModule(BaseRoute))), viewClass, None, false));
    assert CreateMnRoute(0, [direct], map[], 0) == BaseRouteThrows;
    assert CreateMnRoute(0, [esm], map[], 0).Created?;
  }
}
