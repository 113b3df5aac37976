/**
 * The routing middleware's `next` step (`routeResolver`) as one function of the router's state
 * before the transition: announce the transition, deactivate the routes that leave, resolve the
 * new chain's instances, activate the routes that enter, then run the loads and render. The
 * router's `Next` method is proved to produce exactly this; the lemmas state what it guarantees.
 */
module Resolution {
  import opened Wrappers
  import opened Routes
  import opened Chains
  import opened ClassResolution
  import opened Registry
  import opened Hooks
  import opened Render

  /** The router-wide state a transition works on: the registry, the next instance identity,
      the routes' views, the next view identity and the trace of events. */
  datatype World = World(registry: map<string, RouteInstance>, nextId: nat, views: map<RouteId, View>,
                         nextView: nat, trace: seq<Event>)

  /** The transition's own state: its cancellation flag, `mnRoutes` and `activating`
      (absent until the middleware assigns them). */
  datatype Progress = Progress(cancelled: bool, mnRoutes: Option<seq<RouteInstance>>, activating: Option<seq<RouteInstance>>)

  /** How the deferred value a transition returns ends once rendering is over: resolved,
      rejected with the render error, or left pending for ever. */
  datatype Settlement = Resolved | Rejected(error: Error) | NeverSettles

  /** How `next` ends: nothing done (already cancelled), a rejection with an error, stopped
      after activation (cancelled meanwhile), or rendered and settled. */
  datatype NextOutcome = Halted | Failed(error: Error) | Stopped | Settled(settlement: Settlement)

  datatype Step = Step(world: World, progress: Progress, outcome: NextOutcome)

  /** JavaScript's `slice(from)`: the suffix from `from`, empty when `from` is past the end. */
  function Suffix(s: seq<RouteInstance>, from: nat): (r: seq<RouteInstance>)
    ensures from <= |s| ==> r == s[from..]
    ensures from > |s| ==> r == []
  {
    if from <= |s| then s[from..] else []
  }

  /** `routeResolver`: the whole middleware step. */
  function RouteResolver(prev: seq<Descriptor>, routes: seq<Descriptor>, w: World, p: Progress, hasRoot: bool): Step
  {
    var w0 := w.(trace := w.trace + [BeforeTransition]);
    if p.cancelled then Step(w0, p, Halted)
    else
      var ci := ChangingIndex(prev, routes);
      var d := RunAsyncMethod(Deactivation(prev, ci, w.registry), Deactivate, false);
      var w1 := w0.(trace := w0.trace + d.events);
      var p1 := p.(cancelled := d.cancelled, mnRoutes := Some([]));
      if d.failure.Some? then Step(w1, p1, Failed(d.failure.value))
      else AfterDeactivation(routes, ci, w1, p1, hasRoot)
  }

  /** Resolve the chain's instances, then activate the routes from the changing index. */
  function AfterDeactivation(routes: seq<Descriptor>, ci: nat, w: World, p: Progress, hasRoot: bool): Step
  {
    var b := Build(routes, |routes|, w.registry, w.nextId);
    var w2 := w.(registry := b.state.registry, nextId := b.state.nextId);
    var p2 := p.(mnRoutes := Some(b.state.built));
    if b.failure.Some? then Step(w2, p2, Failed(b.failure.value))
    else
      var mn := b.state.built;
      var activating := Suffix(mn, ci);
      var a := RunAsyncMethod(activating, Activate, p.cancelled);
      var w3 := w2.(trace := w2.trace + a.events);
      var p3 := p2.(cancelled := a.cancelled, activating := Some(activating));
      if a.failure.Some? then Step(w3, p3, Failed(a.failure.value))
      else if a.cancelled then Step(w3, p3, Stopped)
      else LoadAndRender(mn, activating, w3, p3, hasRoot)
  }

  /** Run the chain's loads, then render the queue once and settle. */
  function LoadAndRender(mn: seq<RouteInstance>, activating: seq<RouteInstance>, w: World, p: Progress, hasRoot: bool): Step
  {
    var loads := Invocations(Load, LoadChain(Loaders(mn)).calls);
    var queue := RenderQueue(RenderCandidates(mn, activating));
    var rendered := RenderFrom(mn, queue, 0, RenderState(w.views, w.nextView, w.trace + loads), hasRoot);
    Step(World(w.registry, w.nextId, rendered.0.views, rendered.0.nextView, rendered.0.events), p,
         Settled(SettlementOf(rendered.1)))
  }

  /** The intended settlement: resolved when rendering completed, rejected with its error when
      it failed, never left pending. */
  function SettlementOf(err: Option<Error>): (s: Settlement)
    ensures s != NeverSettles
    ensures s.Rejected? <==> err.Some?
    ensures s.Rejected? ==> s.error == err.value
  {
    if err.Some? then Rejected(err.value) else Resolved
  }

  /** How often the views were rendered and how the transition's deferred value settled. */
  datatype RenderRun = RenderRun(renderCalls: nat, settlement: Settlement)

  /**
   * The render step as the source writes it. Without loads a render error rejects the
   * transition. With loads, rendering runs in `then` after the loads and again in the `catch`
   * attached to that `then`, and `resolve` is reached only when one of those renders returns:
   * a render error after resolved loads triggers a second render from what the first left
   * behind; a render error after rejected loads, or a second render error, leaves the
   * transition pending.
   */
  function SettleAsWritten(mn: seq<RouteInstance>, queue: seq<RouteInstance>, st: RenderState, hasRoot: bool,
                           hasLoaders: bool, loadsRejected: bool): RenderRun
  {
    var first := RenderFrom(mn, queue, 0, st, hasRoot);
    if first.1.None? then RenderRun(1, Resolved)
    else if !hasLoaders then RenderRun(1, Rejected(first.1.value))
    else if loadsRejected then RenderRun(1, NeverSettles)
    else
      var second := RenderFrom(mn, queue, 0, first.0, hasRoot);
      if second.1.None? then RenderRun(2, Resolved) else RenderRun(2, NeverSettles)
  }

  /** With loads, a render error is never reported: the second render the `catch` runs (after
      resolved loads) fails with the same error, so the transition stays pending. */
  lemma RenderErrorAfterLoadsIsLost(mn: seq<RouteInstance>, queue: seq<RouteInstance>, st: RenderState, hasRoot: bool,
                                    loadsRejected: bool)
    requires DistinctIds(mn) && InChainOrder(queue, mn)
    requires RenderFrom(mn, queue, 0, st, hasRoot).1.Some?
    ensures var first := RenderFrom(mn, queue, 0, st, hasRoot);
            var run := SettleAsWritten(mn, queue, st, hasRoot, true, loadsRejected);
            && run.settlement == NeverSettles
            && run.renderCalls == (if loadsRejected then 1 else 2)
            && RenderFrom(mn, queue, 0, first.0, hasRoot).1 == first.1
  {
    RenderTwiceFailsAlike(mn, queue, st, hasRoot);
  }

  /** The source's settlement is the intended one exactly when there are no loads or the
      render succeeds. */
  lemma SettleAgrees(mn: seq<RouteInstance>, queue: seq<RouteInstance>, st: RenderState, hasRoot: bool,
                     hasLoaders: bool, loadsRejected: bool)
    requires DistinctIds(mn) && InChainOrder(queue, mn)
    ensures var first := RenderFrom(mn, queue, 0, st, hasRoot);
            (SettleAsWritten(mn, queue, st, hasRoot, hasLoaders, loadsRejected).settlement == SettlementOf(first.1)
             <==> !hasLoaders || first.1.None?)
  {
    RenderTwiceFailsAlike(mn, queue, st, hasRoot);
  }

  /** One route with a load and a view but no root region: rendering fails, and the source
      leaves the transition pending where the intended settlement rejects it. */
  lemma PendingWithLoadAndNoRegion()
    ensures var v := ViewClass("V", false, false);
            var c := BaseRoute.(load := Some(Quiet));
            var r := RouteInstance(0, RouteConfig("a", "a", RouteOptions(None, Some(v), None, false)), c, Some(v));
            var queue := RenderQueue(RenderCandidates([r], [r]));
            var st := RenderState(map[], 0, []);
            && SettleAsWritten([r], queue, st, false, Loaders([r]) != [], LoadChainAsWritten(Loaders([r])).rejected)
               == RenderRun(2, NeverSettles)
            && SettlementOf(RenderFrom([r], queue, 0, st, false).1) == Rejected(NoRootOutletRegion)
  {
    var v := ViewClass("V", false, false);
    var c := BaseRoute.(load := Some(Quiet));
    var r := RouteInstance(0, RouteConfig("a", "a", RouteOptions(None, Some(v), None, false)), c, Some(v));
    assert [r][..0] == [];
    assert RenderQueue([r]) == [r];
    assert Loaders([r]) == [r];
    assert RenderFrom([r], [r], 0, RenderState(map[], 0, []), false).1 == Some(NoRootOutletRegion);
  }

  /** A transition cancelled before the middleware runs only announces itself: nothing is
      deactivated, created, activated, loaded or rendered. */
  lemma CancelledTransitionOnlyAnnounces(prev: seq<Descriptor>, routes: seq<Descriptor>, w: World, p: Progress, hasRoot: bool)
    requires p.cancelled
    ensures RouteResolver(prev, routes, w, p, hasRoot) == Step(w.(trace := w.trace + [BeforeTransition]), p, Halted)
  {
  }

  /** Once the instances are resolved, `mnRoutes` holds one instance per route of the new chain,
      in chain order, each stored in the registry under its route's name, and the activation list
      is exactly the suffix of `mnRoutes` from the changing index. */
  lemma ActivationIsChangingSuffix(prev: seq<Descriptor>, routes: seq<Descriptor>, w: World, p: Progress, hasRoot: bool)
    requires RegistryValid(w.registry, w.nextId)
    ensures var s := RouteResolver(prev, routes, w, p, hasRoot);
            (s.outcome.Stopped? || s.outcome.Settled?) ==>
              && s.progress.mnRoutes.Some?
              && |s.progress.mnRoutes.value| == |routes|
              && (forall j :: 0 <= j < |routes| ==>
                    routes[j].name in s.world.registry && s.progress.mnRoutes.value[j] == s.world.registry[routes[j].name])
              && ChangingIndex(prev, routes) <= |routes|
              && s.progress.activating.value == s.progress.mnRoutes.value[ChangingIndex(prev, routes)..]
  {
    if !p.cancelled {
      var ci := ChangingIndex(prev, routes);
      ChangingIndexBounds(prev, routes);
      var d := RunAsyncMethod(Deactivation(prev, ci, w.registry), Deactivate, false);
      if d.failure.None? {
        var w1 := w.(trace := w.trace + [BeforeTransition] + d.events);
        var p1 := p.(cancelled := d.cancelled, mnRoutes := Some([]));
        assert RouteResolver(prev, routes, w, p, hasRoot) == AfterDeactivation(routes, ci, w1, p1, hasRoot);
        BuildActivatesSuffix(routes, ci, w1, p1, hasRoot);
      }
    }
  }

  lemma BuildActivatesSuffix(routes: seq<Descriptor>, ci: nat, w: World, p: Progress, hasRoot: bool)
    requires RegistryValid(w.registry, w.nextId) && ci <= |routes|
    ensures var s := AfterDeactivation(routes, ci, w, p, hasRoot);
            (s.outcome.Stopped? || s.outcome.Settled?) ==>
              && s.progress.mnRoutes.Some?
              && |s.progress.mnRoutes.value| == |routes|
              && (forall j :: 0 <= j < |routes| ==>
                    routes[j].name in s.world.registry && s.progress.mnRoutes.value[j] == s.world.registry[routes[j].name])
              && s.progress.activating.value == s.progress.mnRoutes.value[ci..]
  {
    BuiltChainMatchesRegistry(routes, w.registry, w.nextId);
    AfterDeactivationKeepsBuild(routes, ci, w, p, hasRoot);
  }

  /** Past activation, the state holds the built chain, its suffix and the build's registry. */
  lemma AfterDeactivationKeepsBuild(routes: seq<Descriptor>, ci: nat, w: World, p: Progress, hasRoot: bool)
    requires ci <= |routes|
    ensures var s, b := AfterDeactivation(routes, ci, w, p, hasRoot), Build(routes, |routes|, w.registry, w.nextId);
            (s.outcome.Stopped? || s.outcome.Settled?) ==>
              && b.failure.None?
              && s.world.registry == b.state.registry
              && s.progress.mnRoutes == Some(b.state.built)
              && s.progress.activating == Some(Suffix(b.state.built, ci))
  {
    var b := Build(routes, |routes|, w.registry, w.nextId);
    if b.failure.None? {
      var mn := b.state.built;
      var activating := Suffix(mn, ci);
      var a := RunAsyncMethod(activating, Activate, p.cancelled);
      if a.failure.None? && !a.cancelled {
        var w3 := w.(registry := b.state.registry, nextId := b.state.nextId, trace := w.trace + a.events);
        var p3 := p.(mnRoutes := Some(mn), cancelled := a.cancelled, activating := Some(activating));
        assert AfterDeactivation(routes, ci, w, p, hasRoot) == LoadAndRender(mn, activating, w3, p3, hasRoot);
        LoadAndRenderKeeps(mn, activating, w3, p3, hasRoot);
      }
    }
  }

  /** Loading and rendering settle and touch neither the registry nor the transition's state. */
  lemma LoadAndRenderKeeps(mn: seq<RouteInstance>, activating: seq<RouteInstance>, w: World, p: Progress, hasRoot: bool)
    ensures var s := LoadAndRender(mn, activating, w, p, hasRoot);
            s.outcome.Settled? && s.progress == p && s.world.registry == w.registry && s.world.nextId == w.nextId
  {
  }

  /** The registry stays well formed across a transition. */
  lemma ResolverKeepsRegistryValid(prev: seq<Descriptor>, routes: seq<Descriptor>, w: World, p: Progress, hasRoot: bool)
    requires RegistryValid(w.registry, w.nextId)
    ensures var s := RouteResolver(prev, routes, w, p, hasRoot);
            RegistryValid(s.world.registry, s.world.nextId) && Extends(w.registry, s.world.registry)
  {
    BuiltChainMatchesRegistry(routes, w.registry, w.nextId);
  }

  /** A transition cancelled by the time activation ends (or failing before) neither loads nor
      renders: no view changes, and after `before:transition` only deactivation events, then
      activation events, are recorded. */
  lemma StoppedTransitionNeitherLoadsNorRenders(prev: seq<Descriptor>, routes: seq<Descriptor>, w: World, p: Progress, hasRoot: bool)
    ensures var s := RouteResolver(prev, routes, w, p, hasRoot);
            !s.outcome.Settled? ==>
              && s.world.views == w.views && s.world.nextView == w.nextView
              && exists deacts, acts ::
                   && s.world.trace == w.trace + [BeforeTransition] + deacts + acts
                   && (forall e :: e in deacts ==> OfKind(e, Deactivate))
                   && (forall e :: e in acts ==> OfKind(e, Activate))
  {
    var s := RouteResolver(prev, routes, w, p, hasRoot);
    if p.cancelled {
      assert s.world.trace == w.trace + [BeforeTransition] + [] + [];
    } else if !s.outcome.Settled? {
      var ci := ChangingIndex(prev, routes);
      var dl := Deactivation(prev, ci, w.registry);
      RunEventsOfKind(dl, Deactivate, false);
      var d := RunAsyncMethod(dl, Deactivate, false);
      var w1 := w.(trace := w.trace + [BeforeTransition] + d.events);
      if d.failure.None? {
        var p1 := p.(cancelled := d.cancelled, mnRoutes := Some([]));
        assert s == AfterDeactivation(routes, ci, w1, p1, hasRoot);
        ActivationStops(routes, ci, w1, p1, hasRoot);
      } else {
        assert s.world.trace == w.trace + [BeforeTransition] + d.events + [];
      }
    }
  }

  /** Past deactivation, a transition that does not reach the loads records only activation events. */
  lemma ActivationStops(routes: seq<Descriptor>, ci: nat, w: World, p: Progress, hasRoot: bool)
    ensures var s := AfterDeactivation(routes, ci, w, p, hasRoot);
            !s.outcome.Settled? ==>
              && s.world.views == w.views && s.world.nextView == w.nextView
              && exists acts :: s.world.trace == w.trace + acts && forall e :: e in acts ==> OfKind(e, Activate)
  {
    var b := Build(routes, |routes|, w.registry, w.nextId);
    var s := AfterDeactivation(routes, ci, w, p, hasRoot);
    if b.failure.None? {
      var act := Suffix(b.state.built, ci);
      RunEventsOfKind(act, Activate, p.cancelled);
      var a := RunAsyncMethod(act, Activate, p.cancelled);
      if !s.outcome.Settled? {
        assert s.world.trace == w.trace + a.events;
      }
    } else {
      assert s.world.trace == w.trace + [];
    }
  }

  /** `s` is what one render pass over `queue` gives after the events `before`, from the given
      views: its views and trace, and its outcome, settled with the render error if any; the
      events the pass adds are `route:render` events naming queued routes in queue order. */
  ghost predicate RendersAfter(s: Step, mn: seq<RouteInstance>, queue: seq<RouteInstance>, views: map<RouteId, View>,
                               nextView: nat, before: seq<Event>, hasRoot: bool)
  {
    var r := RenderFrom(mn, queue, 0, RenderState(views, nextView, before), hasRoot);
    && s.world.views == r.0.views && s.world.trace == r.0.events
    && s.outcome == Settled(SettlementOf(r.1))
    && |r.0.events| >= |before| && r.0.events[..|before|] == before
    && IsSubsequence(Rendered(r.0.events[|before|..]), Ids(queue))
    && (forall e :: e in r.0.events[|before|..] ==> e.RouteRender?)
  }

  /** A transition that gets past activation records, after `before:transition`, its
      deactivation events, then its activation events, then one invocation of every load of the
      chain in chain order, then only `route:render` events, which name queued routes in queue
      order; its views are those the render pass leaves, and it settles, rejected with the
      render error exactly when rendering failed. */
  lemma SettledTransitionLoadsThenRenders(prev: seq<Descriptor>, routes: seq<Descriptor>, w: World, p: Progress, hasRoot: bool)
    ensures var s := RouteResolver(prev, routes, w, p, hasRoot);
            s.outcome.Settled? ==>
              && s.outcome.settlement != NeverSettles
              && s.progress.mnRoutes.Some? && s.progress.activating.Some?
              && var mn := s.progress.mnRoutes.value;
                 var loads := Invocations(Load, Ids(Loaders(mn)));
                 var queue := RenderQueue(RenderCandidates(mn, s.progress.activating.value));
                 exists deacts, acts ::
                   && (forall e :: e in deacts ==> OfKind(e, Deactivate))
                   && (forall e :: e in acts ==> OfKind(e, Activate))
                   && RendersAfter(s, mn, queue, w.views, w.nextView, w.trace + [BeforeTransition] + deacts + acts + loads, hasRoot)
  {
    var s := RouteResolver(prev, routes, w, p, hasRoot);
    if s.outcome.Settled? {
      var ci := ChangingIndex(prev, routes);
      var dl := Deactivation(prev, ci, w.registry);
      RunEventsOfKind(dl, Deactivate, false);
      var d := RunAsyncMethod(dl, Deactivate, false);
      var w1 := w.(trace := w.trace + [BeforeTransition] + d.events);
      var p1 := p.(cancelled := d.cancelled, mnRoutes := Some([]));
      assert s == AfterDeactivation(routes, ci, w1, p1, hasRoot);
      ActivationThenLoads(routes, ci, w1, p1, hasRoot);
      var mn := s.progress.mnRoutes.value;
      var loads := Invocations(Load, Ids(Loaders(mn)));
      var acts :| && (forall e :: e in acts ==> OfKind(e, Activate))
                  && RendersAfter(s, mn, RenderQueue(RenderCandidates(mn, s.progress.activating.value)), w.views, w.nextView,
                                  w1.trace + acts + loads, hasRoot);
      assert w1.trace + acts + loads == w.trace + [BeforeTransition] + d.events + acts + loads;
    }
  }

  /** Past deactivation, a transition that reaches the loads records activation events, then
      each load once in chain order, then renders in queue order. */
  lemma ActivationThenLoads(routes: seq<Descriptor>, ci: nat, w: World, p: Progress, hasRoot: bool)
    ensures var s := AfterDeactivation(routes, ci, w, p, hasRoot);
            s.outcome.Settled? ==>
              && s.outcome.settlement != NeverSettles
              && s.progress.mnRoutes.Some? && s.progress.activating.Some?
              && var mn := s.progress.mnRoutes.value;
                 var loads := Invocations(Load, Ids(Loaders(mn)));
                 var queue := RenderQueue(RenderCandidates(mn, s.progress.activating.value));
                 exists acts ::
                   && (forall e :: e in acts ==> OfKind(e, Activate))
                   && RendersAfter(s, mn, queue, w.views, w.nextView, w.trace + acts + loads, hasRoot)
  {
    var s := AfterDeactivation(routes, ci, w, p, hasRoot);
    if s.outcome.Settled? {
      ActivationSettles(routes, ci, w, p, hasRoot);
      var mn, act := s.progress.mnRoutes.value, s.progress.activating.value;
      var acts: seq<Event>, w3: World :| && w3.trace == w.trace + acts && (forall e :: e in acts ==> OfKind(e, Activate))
                                        && w3.views == w.views && w3.nextView == w.nextView
                                        && s == LoadAndRender(mn, act, w3, s.progress, hasRoot);
      LoadThenRender(mn, act, w3, s.progress, hasRoot);
    }
  }

  /** Past deactivation, a transition that reaches the loads has recorded only activation
      events before them, and has not touched the views. */
  lemma ActivationSettles(routes: seq<Descriptor>, ci: nat, w: World, p: Progress, hasRoot: bool)
    ensures var s := AfterDeactivation(routes, ci, w, p, hasRoot);
            s.outcome.Settled? ==>
              && s.progress.mnRoutes.Some? && s.progress.activating.Some?
              && exists acts, w3: World ::
                   && w3.trace == w.trace + acts
                   && (forall e :: e in acts ==> OfKind(e, Activate))
                   && w3.views == w.views && w3.nextView == w.nextView
                   && s == LoadAndRender(s.progress.mnRoutes.value, s.progress.activating.value, w3, s.progress, hasRoot)
  {
    var s := AfterDeactivation(routes, ci, w, p, hasRoot);
    var b := Build(routes, |routes|, w.registry, w.nextId);
    if s.outcome.Settled? {
      var act := Suffix(b.state.built, ci);
      RunEventsOfKind(act, Activate, p.cancelled);
      var a := RunAsyncMethod(act, Activate, p.cancelled);
      var w3 := w.(registry := b.state.registry, nextId := b.state.nextId, trace := w.trace + a.events);
      assert s == LoadAndRender(b.state.built, act, w3, s.progress, hasRoot);
    }
  }

  /** The loads are recorded once each in chain order, then one render pass follows: its views,
      its `route:render` events in queue order, and its error, which settles the transition. */
  lemma LoadThenRender(mn: seq<RouteInstance>, activating: seq<RouteInstance>, w: World, p: Progress, hasRoot: bool)
    ensures var s := LoadAndRender(mn, activating, w, p, hasRoot);
            var loads := Invocations(Load, Ids(Loaders(mn)));
            var queue := RenderQueue(RenderCandidates(mn, activating));
            && s.outcome.Settled? && s.outcome.settlement != NeverSettles && s.progress == p
            && RendersAfter(s, mn, queue, w.views, w.nextView, w.trace + loads, hasRoot)
  {
    var loaders := Loaders(mn);
    LoadChainCallsEachOnce(loaders);
    var queue := RenderQueue(RenderCandidates(mn, activating));
    var st := RenderState(w.views, w.nextView, w.trace + Invocations(Load, Ids(loaders)));
    RenderFromRendersInQueueOrder(mn, queue, 0, st, hasRoot);
    assert queue[0..] == queue;
  }

  /** In a settled transition over routes with distinct names, the chain's instances are
      distinct and the render queue follows chain order. */
  lemma SettledQueueInChainOrder(prev: seq<Descriptor>, routes: seq<Descriptor>, w: World, p: Progress, hasRoot: bool)
    requires RegistryValid(w.registry, w.nextId)
    requires forall j1, j2 :: 0 <= j1 < j2 < |routes| ==> routes[j1].name != routes[j2].name
    ensures var s := RouteResolver(prev, routes, w, p, hasRoot);
            s.outcome.Settled? ==>
              && s.progress.mnRoutes.Some? && s.progress.activating.Some?
              && DistinctIds(s.progress.mnRoutes.value)
              && InChainOrder(RenderQueue(RenderCandidates(s.progress.mnRoutes.value, s.progress.activating.value)),
                              s.progress.mnRoutes.value)
  {
    var s := RouteResolver(prev, routes, w, p, hasRoot);
    ActivationIsChangingSuffix(prev, routes, w, p, hasRoot);
    ResolverKeepsRegistryValid(prev, routes, w, p, hasRoot);
    if s.outcome.Settled? {
      var mn := s.progress.mnRoutes.value;
      forall j1, j2 | 0 <= j1 < j2 < |mn| ensures mn[j1].id != mn[j2].id {
        assert mn[j1] == s.world.registry[routes[j1].name] && mn[j2] == s.world.registry[routes[j2].name];
      }
      var ci := ChangingIndex(prev, routes);
      CandidatesInChainOrder(mn, ci);
      QueueInChainOrder(RenderCandidates(mn, mn[ci..]), mn);
    }
  }

  /** In a settled transition over routes with distinct names whose chain has a load, the
      source never reports a render error: whatever state the render starts from, a failing
      render leaves the transition pending. */
  lemma TransitionRenderErrorIsLost(prev: seq<Descriptor>, routes: seq<Descriptor>, w: World, p: Progress, hasRoot: bool)
    requires RegistryValid(w.registry, w.nextId)
    requires forall j1, j2 :: 0 <= j1 < j2 < |routes| ==> routes[j1].name != routes[j2].name
    ensures var s := RouteResolver(prev, routes, w, p, hasRoot);
            s.outcome.Settled? && Loaders(s.progress.mnRoutes.value) != [] ==>
              var mn := s.progress.mnRoutes.value;
              var queue := RenderQueue(RenderCandidates(mn, s.progress.activating.value));
              forall st :: RenderFrom(mn, queue, 0, st, hasRoot).1.Some? ==>
                SettleAsWritten(mn, queue, st, hasRoot, true, LoadChainAsWritten(Loaders(mn)).rejected).settlement == NeverSettles
  {
    var s := RouteResolver(prev, routes, w, p, hasRoot);
    SettledQueueInChainOrder(prev, routes, w, p, hasRoot);
    if s.outcome.Settled? && Loaders(s.progress.mnRoutes.value) != [] {
      var mn := s.progress.mnRoutes.value;
      var queue := RenderQueue(RenderCandidates(mn, s.progress.activating.value));
      forall st | RenderFrom(mn, queue, 0, st, hasRoot).1.Some?
        ensures SettleAsWritten(mn, queue, st, hasRoot, true, LoadChainAsWritten(Loaders(mn)).rejected).settlement == NeverSettles
      {
        RenderErrorAfterLoadsIsLost(mn, queue, st, hasRoot, LoadChainAsWritten(Loaders(mn)).rejected);
      }
    }
  }
}
