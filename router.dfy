/**
 * The router and the transition objects it works on. The router owns the module-wide route
 * registry, the routes' views, its middleware list, the routes of the last completed
 * transition and the trace of events; a transition carries the two route chains, the
 * cancellation flag, and the `mnRoutes` and `activating` lists the middleware assigns.
 * Each method is proved to compute what the corresponding specification function states.
 */
module Routing {
  import opened Wrappers
  import opened Routes
  import opened Chains
  import opened ClassResolution
  import opened Registry
  import opened Hooks
  import opened Render
  import opened Resolution
  import opened Context

  /** Extending the chain by one route adds that route's load call, if it defines `load`. */
  lemma LoadsGrow(mnRoutes: seq<RouteInstance>, i: nat)
    requires i < |mnRoutes|
    ensures Invocations(Load, LoadChain(Loaders(mnRoutes[..i + 1])).calls)
            == Invocations(Load, LoadChain(Loaders(mnRoutes[..i])).calls)
               + (if mnRoutes[i].cls.load.Some? then [Invoked(Load, mnRoutes[i].id)] else [])
  {
    var before := Loaders(mnRoutes[..i]);
    assert mnRoutes[..i + 1][..i] == mnRoutes[..i];
    if mnRoutes[i].cls.load.Some? {
      assert Loaders(mnRoutes[..i + 1]) == before + [mnRoutes[i]];
      assert (before + [mnRoutes[i]])[..|before|] == before;
    } else {
      assert Loaders(mnRoutes[..i + 1]) == before;
    }
  }

  /** After `j` chained steps that produced `steps` and left the flag at `cancelled`, the rest of
      the run is the run of the remaining hooks from that flag. */
  ghost predicate StepsSoFar(list: seq<RouteInstance>, kind: HookKind, c0: bool, j: nat, cancelled: bool, steps: seq<Event>)
  {
    && j <= |list|
    && var rest := HookSteps(list[j..], kind, cancelled);
       HookSteps(list, kind, c0) == HookRun(steps + rest.events, rest.cancelled, rest.failure)
  }

  lemma StepsStart(list: seq<RouteInstance>, kind: HookKind, c0: bool)
    ensures StepsSoFar(list, kind, c0, 0, c0, [])
  {
    assert list[0..] == list;
  }

  lemma StepsSkip(list: seq<RouteInstance>, kind: HookKind, c0: bool, j: nat, steps: seq<Event>)
    requires j < |list| && StepsSoFar(list, kind, c0, j, true, steps)
    ensures StepsSoFar(list, kind, c0, j + 1, true, steps)
  {
  }

  /** A step on a transition that is not cancelled calls the hook; a rejection ends the run there. */
  lemma StepsAdvance(list: seq<RouteInstance>, kind: HookKind, c0: bool, j: nat, steps: seq<Event>)
    requires j < |list| && StepsSoFar(list, kind, c0, j, false, steps)
    ensures var h := HookOf(list[j], kind);
            if h.rejects then HookSteps(list, kind, c0) == HookRun(steps + StepEvents(list[j], kind), h.cancels, Some(HookRejected(kind, list[j].config.name)))
            else StepsSoFar(list, kind, c0, j + 1, h.cancels, steps + StepEvents(list[j], kind))
  {
    assert list[j..][1..] == list[j + 1..];
    var h := HookOf(list[j], kind);
    var out := StepEvents(list[j], kind);
    var rest := HookSteps(list[j + 1..], kind, h.cancels);
    if !h.rejects {
      assert steps + (out + rest.events) == steps + out + rest.events;
    }
  }

  lemma StepsEnd(list: seq<RouteInstance>, kind: HookKind, c0: bool, cancelled: bool, steps: seq<Event>)
    requires StepsSoFar(list, kind, c0, |list|, cancelled, steps)
    ensures HookSteps(list, kind, c0) == HookRun(steps, cancelled, None)
  {
    assert steps + [] == steps;
  }

  /** One navigation: the previous and the new route chain (from the URL engine), whether a newer
      navigation has cancelled it, and the instance lists the middleware assigns to it. */
  class Transition {
    const prev: seq<Descriptor>
    const routes: seq<Descriptor>
    var isCancelled: bool
    var mnRoutes: Option<seq<RouteInstance>>
    var activating: Option<seq<RouteInstance>>

    constructor(prev: seq<Descriptor>, routes: seq<Descriptor>, isCancelled: bool)
      ensures this.prev == prev && this.routes == routes && this.isCancelled == isCancelled
      ensures mnRoutes == None && activating == None
    {
      this.prev := prev;
      this.routes := routes;
      this.isCancelled := isCancelled;
      mnRoutes := None;
      activating := None;
    }

    /** The transition's state as the specification functions see it. */
    function State(): Progress
      reads this
    {
      Progress(isCancelled, mnRoutes, activating)
    }

    /** `transition.isActivating(route)`: the route is in the activation list, once assigned. */
    predicate IsActivating(route: RouteInstance): (b: bool)
      reads this
      ensures b <==> activating.Some? && route in activating.value
    {
      IsActivatingRoute(activating, route)
    }

    /** `transition.isTarget(route)`, as intended (see `Context.IsTargetRoute`): only the last
        route of an assigned, non-empty chain. */
    predicate IsTarget(route: RouteInstance): (b: bool)
      reads this
      ensures b ==> mnRoutes.Some? && |mnRoutes.value| > 0 && mnRoutes.value[|mnRoutes.value| - 1] == route
    {
      IsTargetRoute(mnRoutes, route)
    }

    /** On an assigned chain without repeated instances, the last route is the target. */
    lemma LastRouteIsTarget(route: RouteInstance)
      requires mnRoutes.Some? && |mnRoutes.value| > 0 && mnRoutes.value[|mnRoutes.value| - 1] == route
      requires forall i, j :: 0 <= i < j < |mnRoutes.value| ==> mnRoutes.value[i] != mnRoutes.value[j]
      ensures IsTarget(route)
    {
      IsTargetRouteIsLast(mnRoutes.value, route);
    }
  }

  class Router {
    /** `mnRouteMap`: the route instance registered for each route name. */
    var registry: map<string, RouteInstance>
    /** The identity the next created instance receives. */
    var nextId: nat
    /** `route.view` of each instance that has one. */
    var views: map<RouteId, View>
    var nextView: nat
    /** Whether a root region was given to the constructor. */
    const hasRootRegion: bool
    var middleware: seq<Middleware>
    /** `router.state.mnRoutes`: the instances of the last completed transition. */
    var current: Option<seq<RouteInstance>>
    /** Events on the router channel and hook invocations, in order. */
    var trace: seq<Event>

    ghost predicate Valid()
      reads this
    {
      RegistryValid(registry, nextId) && RoutingMiddleware in middleware
    }

    /** The router-wide state as the specification functions see it. */
    function Snapshot(): World
      reads this
    {
      World(registry, nextId, views, nextView, trace)
    }

    constructor(hasRootRegion: bool)
      ensures Valid()
      ensures this.hasRootRegion == hasRootRegion && middleware == [RoutingMiddleware]
      ensures registry == map[] && views == map[] && current == None && trace == []
    {
      registry := map[];
      nextId := 0;
      views := map[];
      nextView := 0;
      this.hasRootRegion := hasRootRegion;
      middleware := [RoutingMiddleware];
      current := None;
      trace := [];
    }

    /** `use`: add a middleware after every other one, or just before the routing middleware. */
    method Use(m: Middleware, before: bool)
      requires Valid()
      modifies this`middleware
      ensures Valid()
      ensures middleware == UseMiddleware(old(middleware), m, before)
    {
      UseMiddlewarePlacement(middleware, m, before);
      if before {
        var i := IndexOf(middleware, RoutingMiddleware);
        var start := if i >= 0 then i else if |middleware| > 0 then |middleware| - 1 else 0;
        middleware := middleware[..start] + [m] + middleware[start..];
      } else {
        middleware := middleware + [m];
      }
    }

    /** `destroy`: forget every registered route instance. */
    method Destroy()
      requires Valid()
      modifies this`registry
      ensures Valid() && registry == map[]
    {
      registry := map[];
    }

    /** The registered instances of `prev[changingIndex..]`, from the end of the chain down. */
    method CollectDeactivated(prev: seq<Descriptor>, changingIndex: nat) returns (deactivated: seq<RouteInstance>)
      ensures deactivated == Deactivation(prev, changingIndex, registry)
    {
      deactivated := [];
      var routeIndex := |prev| - 1;
      while routeIndex >= changingIndex
        invariant -1 <= routeIndex < |prev|
        invariant routeIndex + 1 >= changingIndex || routeIndex + 1 == |prev|
        invariant deactivated == Deactivation(prev, routeIndex + 1, registry)
      {
        var name := prev[routeIndex].name;
        if name in registry {
          deactivated := deactivated + [registry[name]];
        }
        routeIndex := routeIndex - 1;
      }
    }

    /** Resolve the instances of `t.routes` in order, reusing registered ones and registering new
        ones, appending each to `t.mnRoutes`; stop at the first route that cannot be resolved. */
    method BuildRoutes(t: Transition) returns (failure: Option<Error>)
      requires Valid()
      modifies this`registry, this`nextId, t`mnRoutes
      ensures Valid()
      ensures var b := Build(t.routes, |t.routes|, old(registry), old(nextId));
              registry == b.state.registry && nextId == b.state.nextId && t.mnRoutes == Some(b.state.built)
              && failure == b.failure
    {
      BuiltChainMatchesRegistry(t.routes, registry, nextId);
      var built: seq<RouteInstance> := [];
      t.mnRoutes := Some(built);
      var i := 0;
      while i < |t.routes|
        invariant 0 <= i <= |t.routes|
        invariant Build(t.routes, i, old(registry), old(nextId)) == BuildResult(BuildState(registry, nextId, built), None)
        invariant t.mnRoutes == Some(built)
      {
        var route := t.routes[i];
        if route.name in registry {
          built := built + [registry[route.name]];
        } else {
          match CreateMnRoute(i, t.routes, registry, nextId)
          case Created(instance) =>
            registry := registry[route.name := instance];
            nextId := nextId + 1;
            built := built + [instance];
          case NotCreated =>
            BuildStopsAtFailure(t.routes, i + 1, |t.routes|, old(registry), old(nextId));
            return Some(UnableToCreateRoute(route.name));
          case LoaderRejected =>
            BuildStopsAtFailure(t.routes, i + 1, |t.routes|, old(registry), old(nextId));
            return Some(ClassLoaderRejected(route.name));
          case BaseRouteThrows =>
            BuildStopsAtFailure(t.routes, i + 1, |t.routes|, old(registry), old(nextId));
            return Some(BaseRouteCalled(route.name));
        }
        t.mnRoutes := Some(built);
        i := i + 1;
      }
      return None;
    }

    /** `runAsyncMethod`: emit `before:<kind>` for every route, then call the hooks in order,
        each only while the transition is not cancelled, emitting `<kind>` after a hook unless
        the transition got cancelled meanwhile; a rejecting hook ends the run. */
    method RunHooks(t: Transition, list: seq<RouteInstance>, kind: HookKind) returns (failure: Option<Error>)
      modifies this`trace, t`isCancelled
      ensures var run := RunAsyncMethod(list, kind, old(t.isCancelled));
              trace == old(trace) + run.events && t.isCancelled == run.cancelled && failure == run.failure
    {
      EmitBefores(list, kind);
      failure := RunSteps(t, list, kind);
    }

    /** The chained steps of `runAsyncMethod`, one hook after the other. */
    method RunSteps(t: Transition, list: seq<RouteInstance>, kind: HookKind) returns (failure: Option<Error>)
      modifies this`trace, t`isCancelled
      ensures var run := HookSteps(list, kind, old(t.isCancelled));
              trace == old(trace) + run.events && t.isCancelled == run.cancelled && failure == run.failure
    {
      ghost var c0, base := t.isCancelled, trace;
      ghost var steps: seq<Event> := [];
      StepsStart(list, kind, c0);
      assert trace == base + steps;
      var j := 0;
      while j < |list|
        invariant j <= |list|
        invariant trace == base + steps
        invariant StepsSoFar(list, kind, c0, j, t.isCancelled, steps)
      {
        ghost var delta;
        failure, delta := ChainStep(t, list, j, kind, c0, base, steps);
        steps := steps + delta;
        if failure.Some? {
          return;
        }
        j := j + 1;
      }
      StepsEnd(list, kind, c0, t.isCancelled, steps);
      return None;
    }

    /** The `j`-th chained step: nothing once the transition is cancelled, otherwise the hook call. */
    method ChainStep(t: Transition, list: seq<RouteInstance>, j: nat, kind: HookKind,
                     ghost c0: bool, ghost base: seq<Event>, ghost steps: seq<Event>)
      returns (failure: Option<Error>, ghost delta: seq<Event>)
      requires j < |list| && StepsSoFar(list, kind, c0, j, t.isCancelled, steps)
      requires trace == base + steps
      modifies this`trace, t`isCancelled
      ensures trace == base + (steps + delta)
      ensures failure.None? ==> StepsSoFar(list, kind, c0, j + 1, t.isCancelled, steps + delta)
      ensures failure.Some? ==> HookSteps(list, kind, c0) == HookRun(steps + delta, t.isCancelled, failure)
    {
      if t.isCancelled {
        StepsSkip(list, kind, c0, j, steps);
        assert steps + [] == steps;
        return None, [];
      }
      StepsAdvance(list, kind, c0, j, steps);
      failure := CallHook(t, list[j], kind);
      delta := StepEvents(list[j], kind);
      assert base + steps + delta == base + (steps + delta);
    }

    /** One chained step of `runAsyncMethod` on a transition that is not cancelled: call the
        hook, then emit `<kind>` unless the transition got cancelled meanwhile or the hook rejected. */
    method CallHook(t: Transition, route: RouteInstance, kind: HookKind) returns (failure: Option<Error>)
      requires !t.isCancelled
      modifies this`trace, t`isCancelled
      ensures var h := HookOf(route, kind);
              && t.isCancelled == h.cancels
              && failure == (if h.rejects then Some(HookRejected(kind, route.config.name)) else None)
              && trace == old(trace) + StepEvents(route, kind)
    {
      var hook := HookOf(route, kind);
      ghost var trace0 := trace;
      trace := trace + [Invoked(kind, route.id)];
      if hook.cancels {
        t.isCancelled := true;
      }
      if hook.rejects {
        return Some(HookRejected(kind, route.config.name));
      }
      if !t.isCancelled {
        trace := trace + [After(kind, route.id)];
      }
      assert trace == trace0 + StepEvents(route, kind);
      return None;
    }

    /** `before:<kind>` for every route of the list, in order. */
    method EmitBefores(list: seq<RouteInstance>, kind: HookKind)
      modifies this`trace
      ensures trace == old(trace) + Befores(list, kind)
    {
      ghost var befores := Befores(list, kind);
      for i := 0 to |list|
        invariant trace == old(trace) + befores[..i]
      {
        assert befores[..i + 1] == befores[..i] + [Before(kind, list[i].id)];
        trace := trace + [Before(kind, list[i].id)];
      }
      assert befores[..|list|] == befores;
    }

    /** The load chain: call the `load` hook of every route of the chain that defines one, in
        chain order, each after the previous one settled. */
    method RunLoads(mnRoutes: seq<RouteInstance>)
      modifies this`trace
      ensures trace == old(trace) + Invocations(Load, LoadChain(Loaders(mnRoutes)).calls)
    {
      ghost var start := trace;
      for i := 0 to |mnRoutes|
        invariant trace == start + Invocations(Load, LoadChain(Loaders(mnRoutes[..i])).calls)
      {
        var route := mnRoutes[i];
        LoadsGrow(mnRoutes, i);
        ghost var calls := Invocations(Load, LoadChain(Loaders(mnRoutes[..i])).calls);
        if route.cls.load.Some? {
          trace := trace + [Invoked(Load, route.id)];
          assert trace == start + (calls + [Invoked(Load, route.id)]);
        } else {
          assert calls + [] == calls;
        }
      }
      assert mnRoutes[..|mnRoutes|] == mnRoutes;
    }

    /** The render queue: push each candidate with a view class, first popping the tail when it
        set `outlet: false`. */
    method BuildRenderQueue(candidates: seq<RouteInstance>) returns (memo: seq<RouteInstance>)
      ensures memo == RenderQueue(candidates)
    {
      memo := [];
      for i := 0 to |candidates|
        invariant memo == RenderQueue(candidates[..i])
      {
        var route := candidates[i];
        assert candidates[..i + 1][..i] == candidates[..i];
        if route.viewClass.Some? {
          if |memo| > 0 && memo[|memo| - 1].config.options.outletOff {
            memo := memo[..|memo| - 1];
          }
          memo := memo + [route];
        }
      }
      assert candidates[..|candidates|] == candidates;
    }

    /** `getParentRegion`: scan the routes before `route`, nearest first, for one with a view
        that does not set `outlet: false`; fall back to the root region. */
    method GetParentRegion(routes: seq<RouteInstance>, route: RouteInstance) returns (region: RegionResult)
      ensures region == ParentRegion(routes, route, views, hasRootRegion)
    {
      var routeIndex := IndexOf(routes, route) - 1;
      while routeIndex >= 0
        invariant routeIndex < |routes|
        invariant ParentRegion(routes, route, views, hasRootRegion)
                  == ScanRegion(routes, if routeIndex < 0 then 0 else routeIndex + 1, views, hasRootRegion)
      {
        var parent := routes[routeIndex];
        if parent.id in views && !parent.config.options.outletOff {
          var view := views[parent.id];
          if view.cls.hasOutlet {
            return InRegion(OutletOf(view.serial));
          } else {
            return RegionError(NoOutletRegionIn(parent.config.name));
          }
        }
        routeIndex := routeIndex - 1;
      }
      return if hasRootRegion then InRegion(RootRegion) else NoRegion;
    }

    /** `route.renderView(region)`: keep a view that accepts the update; otherwise build one and
        show it in the region, or accept it without a region only when it is already rendered. */
    method RenderView(route: RouteInstance, region: Option<Region>) returns (error: Option<Error>)
      modifies this`views, this`nextView, this`trace
      ensures match RenderOne(route, region, old(views), old(nextView))
              case Kept => views == old(views) && nextView == old(nextView) && trace == old(trace) && error == None
              case RenderFailed(e) => views == old(views) && nextView == old(nextView) && trace == old(trace) && error == Some(e)
              case Built(v) => views == old(views)[route.id := v] && nextView == old(nextView) + 1
                               && trace == old(trace) + [RouteRender(route.id)] && error == None
    {
      if route.id in views && route.cls.updatesView {
        return None;
      }
      var view := View(nextView, ViewClassOf(route));
      if region.None? && !view.cls.prerendered {
        return Some(NoRootOutletRegion);
      }
      views := views[route.id := view];
      nextView := nextView + 1;
      trace := trace + [RouteRender(route.id)];
      return None;
    }

    /** `renderViews`: render the queue built from the activated routes (or the target route)
        in order, each in its parent region, stopping at the first error. */
    method RenderViews(mnRoutes: seq<RouteInstance>, activated: seq<RouteInstance>) returns (error: Option<Error>)
      modifies this`views, this`nextView, this`trace
      ensures var r := RenderFrom(mnRoutes, RenderQueue(RenderCandidates(mnRoutes, activated)), 0,
                                  RenderState(old(views), old(nextView), old(trace)), hasRootRegion);
              views == r.0.views && nextView == r.0.nextView && trace == r.0.events && error == r.1
    {
      var queue := BuildRenderQueue(RenderCandidates(mnRoutes, activated));
      var i := 0;
      while i < |queue|
        invariant 0 <= i <= |queue|
        invariant RenderFrom(mnRoutes, queue, 0, RenderState(old(views), old(nextView), old(trace)), hasRootRegion)
                  == RenderFrom(mnRoutes, queue, i, RenderState(views, nextView, trace), hasRootRegion)
      {
        var route := queue[i];
        var region := GetParentRegion(mnRoutes, route);
        if region.RegionError? {
          return Some(region.error);
        }
        error := RenderView(route, RegionOf(region));
        if error.Some? {
          return;
        }
        i := i + 1;
      }
      return None;
    }

    /** The routing middleware's `next`: the whole transition, as `RouteResolver` states it. */
    method Next(t: Transition) returns (outcome: NextOutcome)
      requires Valid()
      modifies this`registry, this`nextId, this`views, this`nextView, this`trace
      modifies t`isCancelled, t`mnRoutes, t`activating
      ensures Valid()
      ensures var s := RouteResolver(t.prev, t.routes, old(Snapshot()), old(t.State()), hasRootRegion);
              Snapshot() == s.world && t.State() == s.progress && outcome == s.outcome
    {
      trace := trace + [BeforeTransition];
      if t.isCancelled {
        return Halted;
      }
      var changingIndex := GetChangingIndex(t.prev, t.routes);
      var deactivated := CollectDeactivated(t.prev, changingIndex);
      t.mnRoutes := Some([]);
      var failure := RunHooks(t, deactivated, Deactivate);
      if failure.Some? {
        return Failed(failure.value);
      }
      outcome := ResolveAndActivate(t, changingIndex);
    }

    /** The part of `next` after deactivation: resolve the chain's instances, then activate the
        routes from the changing index, then load and render, as `AfterDeactivation` states it. */
    method ResolveAndActivate(t: Transition, changingIndex: nat) returns (outcome: NextOutcome)
      requires Valid()
      modifies this`registry, this`nextId, this`views, this`nextView, this`trace
      modifies t`isCancelled, t`mnRoutes, t`activating
      ensures Valid()
      ensures var s := AfterDeactivation(t.routes, changingIndex, old(Snapshot()), old(t.State()), hasRootRegion);
              Snapshot() == s.world && t.State() == s.progress && outcome == s.outcome
    {
      var failure := BuildRoutes(t);
      if failure.Some? {
        return Failed(failure.value);
      }
      var mnRoutes := t.mnRoutes.value;
      var activated := Suffix(mnRoutes, changingIndex);
      t.activating := Some(activated);
      failure := RunHooks(t, activated, Activate);
      if failure.Some? {
        return Failed(failure.value);
      }
      if t.isCancelled {
        return Stopped;
      }
      outcome := LoadAndRenderViews(t, mnRoutes, activated);
    }

    /** The last part of `next`: run the load chain, render once, and settle. */
    method LoadAndRenderViews(t: Transition, mnRoutes: seq<RouteInstance>, activated: seq<RouteInstance>) returns (outcome: NextOutcome)
      modifies this`views, this`nextView, this`trace
      ensures var s := LoadAndRender(mnRoutes, activated, old(Snapshot()), t.State(), hasRootRegion);
              Snapshot() == s.world && outcome == s.outcome
    {
      RunLoads(mnRoutes);
      var renderError := RenderViews(mnRoutes, activated);
      return Settled(SettlementOf(renderError));
    }

    /** `done`: the transition's instances become the router's current ones; announce it. */
    method Done(t: Transition)
      modifies this`current, this`trace
      ensures current == t.mnRoutes && trace == old(trace) + [TransitionDone]
    {
      current := t.mnRoutes;
      trace := trace + [TransitionDone];
    }

    /** `cancel`: announce the abort unless the transition was redirected. */
    method Cancel(t: Transition, redirected: bool)
      modifies this`trace
      ensures trace == old(trace) + (if redirected then [] else [TransitionAbort])
    {
      if !redirected {
        trace := trace + [TransitionAbort];
      }
    }

    /** `error`: announce the abort, then the error. */
    method Error(t: Transition)
      modifies this`trace
      ensures trace == old(trace) + [TransitionAbort, TransitionError]
    {
      trace := trace + [TransitionAbort, TransitionError];
    }
  }
}
