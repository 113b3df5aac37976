# marionette.routing — transition resolution, modelled in Dafny

This project models the transition-resolution core of `marionette.routing`, the layer that binds
the Cherrytree URL router to Marionette views. For each navigation the routing middleware:

- computes the *changing index*, the first position where the previous and the new route chain
  differ by name or by parameters;
- deactivates the registered route instances of the previous chain from its end down to that
  index;
- resolves the new chain's route instances in order, reusing the process-wide registry
  (`mnRouteMap`) or creating and registering new ones (explicit `routeClass`, else the nearest
  ancestor's `childRoutes` entry, else the base `Route` when only a `viewClass` is given);
- activates the suffix of the chain from the changing index;
- runs the `load` hooks in chain order;
- renders the views of the activated routes (or of the target route) into the outlet region of
  the nearest ancestor that has a view, or into the root region.

The asynchronous steps are modelled as sequential steps. A user hook is a value that says whether
its deferred result rejects and whether a newer navigation cancels the transition while it runs.
The router channel is an append-only trace of events (`before:transition`, `before:<hook>`, hook
invocations, `<hook>`, `route:render`, `transition`, `transition:abort`, `transition:error`).
Views and regions are abstract tokens.

Files:

- `routes.dfy`: the data model.
- `changing_index.dfy`: `getChangingIndex`.
- `class_resolution.dfy`: `findRouteClass`, `createRouteInstance`, `createMnRoute`.
- `registry.dfy`: the deactivation list and the building of `mnRoutes` against the registry.
- `hooks.dfy`: `runAsyncMethod`, the loaders and the load chain.
- `render.dfy`: `renderViews`, `getParentRegion` and the decision part of `Route.renderView`.
- `context.dfy`: `RouteContext`, `isActivating`/`isTarget`, `getMnRoutes`, `Router.use` and `getAttributeValues`.
- `resolution.dfy`: the whole `next` step as one function of the state, with its lemmas, and the
  settlement of the render step as written.
- `router.dfy`: the `Router` and `Transition` classes. Their methods hold the loops and the
  in-place updates, and each is proved to compute the corresponding function.

Where the code and the design description disagree, the model follows the code:

- Rendering is skipped only when the transition is cancelled by the end of activation. The flag is
  not checked again after the loads (dist/marionette.routing.js:311).
- The `catch` at dist/marionette.routing.js:304-307 is a side branch. The promise returned by `next`
  still rejects when deactivation, instance building or activation fails, so the model reports
  that failure.
- Instances are resolved strictly one after the other, including deferred class loaders
  (dist/marionette.routing.js:275-293). Sibling resolution is never concurrent.
- A view built without a region and not already rendered fails with the single message
  `No root outlet region defined` (dist/marionette.routing.js:401), whether or not the route
  has an ancestor.
- A route class named directly is called as a loader unless its prototype is an instance of
  `Route` (dist/marionette.routing.js:172). `Route` itself fails that test, so `routeClass: Route`
  (or a `childRoutes` entry `Route`) is called without `new` and throws, and the transition fails.
- `request` reads `channel._requests[name]` for every parent with a context channel
  (dist/marionette.routing.js:51). A channel exists whenever a class declares context requests or
  events (dist/marionette.routing.js:422-432). Its request table is created only when a handler is bound, so a
  parent with events only, or with an empty request map, makes `request` throw. Backbone.Radio is
  not part of this model; this follows its documented `reply` behaviour.
- A class loader whose value is falsy yields no instance, even when the route has a `viewClass`
  (dist/marionette.routing.js:176). The transition then fails with `Unable to create route …`.

## Model

| member | source | states |
|---|---|---|
| `Chains.ChangingIndexIsFirstDivergence` | dist/marionette.routing.js:123-136 | The changing index is a first divergence: the chains agree by name and params at every earlier position, and at the index one chain has run out or the entries differ. |
| `Chains.FirstDivergenceUnique` | dist/marionette.routing.js:123-136 | Any first divergence equals the changing index, so that property fully characterises it. |
| `Chains.ChangingIndexBounds` | dist/marionette.routing.js:127-135 | The index never passes either chain's length, so it lies in `[0, max(|prev|, |cur|)]`. |
| `Chains.SameChainsGiveLength` | dist/marionette.routing.js:123-136 | Two chains that agree entry by entry give their common length. |
| `Chains.GetChangingIndex` | dist/marionette.routing.js:123-136 | The `for`/`break` loop up to the longer length returns exactly the changing index. |
| `ClassResolution.FromAncestorsIsNearest` | dist/marionette.routing.js:140-149 | The ancestor search finds nothing iff no registered ancestor's `childRoutes` names the route. Otherwise it returns the entry of the nearest such ancestor, with no provider between it and the route. |
| `ClassResolution.FindRouteClassOrder` | dist/marionette.routing.js:138-152 | An explicit `routeClass` wins. Otherwise the nearest providing ancestor (index-1 down to 0) supplies the class. Otherwise there is none. |
| `ClassResolution.CreateRouteInstance` | dist/marionette.routing.js:154-163 | An instance exists iff a class or a view class is given. Without a class it is a base `Route`. An ES module contributes its `default` export. The `viewClass` option overrides the one in `routeOptions`. |
| `ClassResolution.CreateMnRoute` | dist/marionette.routing.js:165-180 | A created instance carries the new identity and the `$config` snapshot (name, path, options) of its descriptor. |
| `ClassResolution.CreateMnRouteOutcome` | dist/marionette.routing.js:165-180 | The class comes from the explicit `routeClass`, else from the `childRoutes` entry of the nearest registered ancestor that has one. From that reference: a rejecting loader rejects, and a loader yielding nothing creates nothing. The base `Route` named directly is called as a loader and throws, since it is not its own subclass. Any other class is instantiated, with the options' view class when given. With no reference, a base `Route` instance is created iff a view class is given. |
| `Registry.DeactivationOrder` | dist/marionette.routing.js:261-267 | The deactivation list holds the registered instances of `prev[changingIndex..]`, at strictly decreasing positions (innermost first). Every position whose name is registered occurs, and unregistered names are skipped. |
| `Registry.BuildCorrect` | dist/marionette.routing.js:274-293 | Building goes forward. `mnRoutes[j]` is the registry entry of `routes[j].name`. Old entries are never replaced, and new entries are exactly the resolved names with fresh identities. On failure, the first unresolved route has no entry and `createMnRoute` created nothing for it. The error is the class loader's rejection when that loader rejected, and the exception of the base `Route` called as a loader when it was named directly. Otherwise it is `Unable to create route <name>`. |
| `Registry.ExplicitBaseRouteFailsBuild` | dist/marionette.routing.js:172-178 | A route whose `routeClass` is the base `Route` itself fails the build. The same class as a module's `default` export is instantiated. |
| `Registry.BuildKeepsValid` | dist/marionette.routing.js:277-288 | After a build every entry is still stored under its own name, and no instance is registered under two names. |
| `Registry.BuiltChainMatchesRegistry` | dist/marionette.routing.js:275-293 | A successful build gives one instance per route, in chain order, each the registry's entry for that name. The registry stays valid and extends the old one. |
| `Registry.BuildStopsAtFailure` | dist/marionette.routing.js:283-286 | Once a route cannot be resolved, later routes are not processed. |
| `Registry.LookupsReproduceBuild` | dist/marionette.routing.js:277-280 | A successful build yields one instance per route, configured with that route's name. A route already registered is reused as is. |
| `Hooks.Befores` | dist/marionette.routing.js:224-225 | One `before:<method>` event per route, in list order. |
| `Hooks.HookStepsInOrder` | dist/marionette.routing.js:223-236 | Exactly the first `Executed` hooks are called, in order. A hook's `<method>` event follows it only if the transition is still not cancelled and the hook did not reject. The run stops early only on cancellation or rejection. |
| `Hooks.RunAsyncMethod` | dist/marionette.routing.js:223-236 | A run starts with the `before:` events of every route. On a transition already cancelled no hook is called: only those events are emitted, with no failure. |
| `Hooks.RunEventsOfKind` | dist/marionette.routing.js:223-236 | A run for one method emits only that method's events. |
| `Hooks.LoadersInChainOrder` | dist/marionette.routing.js:313-327 | The loaders are the routes of the chain that define `load`, each taken once, in chain order. The k-th loader is the route at the k-th of a strictly increasing list of positions. That list holds every position whose route defines `load`. |
| `Hooks.RejectingLoadCalledTwice` | dist/marionette.routing.js:316-321 | As written, a rejecting `load` after a resolving one is called twice. |
| `Hooks.LoadChainCallsEachOnce` | dist/marionette.routing.js:313-327 | The intended load chain calls every `load` exactly once, in chain order. A rejection does not stop later loads. |
| `Hooks.LoadChainsAgreeWithoutRejection` | dist/marionette.routing.js:313-327 | When no load rejects, the chain as written equals the intended one. |
| `Resolution.RenderErrorAfterLoadsIsLost` | dist/marionette.routing.js:329-338 | As written, with loads, a failed render never settles. After resolved loads, `catch` renders a second time from the state the first render left. That render fails with the same error. |
| `Resolution.SettleAgrees` | dist/marionette.routing.js:329-341 | The code as written settles as intended (once rendered, rejected exactly with the render error) iff there are no loads or rendering succeeds. |
| `Resolution.PendingWithLoadAndNoRegion` | dist/marionette.routing.js:329-338 | One route with `load` and a view, and no root region. As written it is rendered twice and left pending. Intended: rejected with `No root outlet region defined`. |
| `Resolution.TransitionRenderErrorIsLost` | dist/marionette.routing.js:310-341 | Take a settled transition over routes with distinct names whose chain has a `load`. As written, every failing render leaves it pending. |
| `Context.ParentRoutes` | dist/marionette.routing.js:32-35 | The parent routes are those before the route. For a route not in the chain, `slice(0, -1)` gives all routes but the last. |
| `Context.NearestResponderIsNearest` | dist/marionette.routing.js:47-55 | The search ends at the nearest parent that either answers the request or has a context channel without request handlers; no later parent does either. It forwards to that parent when it answers, and throws when its channel has no request table. Nobody answers iff no parent ends the search. |
| `Context.Request` | dist/marionette.routing.js:47-55 | The backward loop gives the outcome `NearestResponderIsNearest` characterises: the answering parent, nobody, or the parent whose missing request table makes it throw. |
| `Context.RecipientsNearestFirst` | dist/marionette.routing.js:37-45 | `trigger` reaches every parent with a context channel exactly once, nearest first. |
| `Context.Trigger` | dist/marionette.routing.js:37-45 | The backward loop reaches the recipients in that order. |
| `Context.GetMnRoutes` | dist/marionette.routing.js:100-104 | Position `j` holds the registry entry of `routes[j].name`, or nothing when the name is unregistered. |
| `Context.GetMnRoutesAfterBuild` | dist/marionette.routing.js:100-104 | After a successful build, the lookups return exactly the built `mnRoutes`. |
| `Context.IsActivatingRoute` | dist/marionette.routing.js:238-240 | True iff the activation list exists and contains the route. |
| `Context.EmptyChainMakesEveryRouteTarget` | dist/marionette.routing.js:242-244 | As written, every route is the target while `mnRoutes` is `[]`. |
| `Context.IsTargetRoute` | dist/marionette.routing.js:242-244 | Intended `isTarget`: the route is in the chain, at its last position. |
| `Routing.Transition.IsActivating` | dist/marionette.routing.js:238-240 | `transition.isActivating(route)` holds iff `activating` is assigned and contains the route. |
| `Routing.Transition.IsTarget` | dist/marionette.routing.js:242-244 | `transition.isTarget(route)`, as intended: only the last route of an assigned, non-empty chain. |
| `Routing.Transition.LastRouteIsTarget` | dist/marionette.routing.js:242-244 | On an assigned chain without repeats, the last route is the target. |
| `Context.IsTargetRouteIsLast` | dist/marionette.routing.js:242-244 | On a chain without repeats the target is exactly the last route. On non-empty chains this agrees with the code as written. |
| `Context.UseMiddlewarePlacement` | dist/marionette.routing.js:82-92 | `use` adds one middleware: last by default, or immediately before the routing middleware with `before`. Nothing else moves. |
| `Context.LastAttributeWins` | dist/marionette.routing.js:448-459 | Each key takes the value of the last attribute whose name is the prefix plus that key. Keys no attribute names keep their defaults. |
| `Context.GetAttributeValues` | dist/marionette.routing.js:448-459 | The attribute loop computes exactly that map. |
| `Render.RenderQueueIsReference` | dist/marionette.routing.js:205-213 | The queue holds, in candidate order, every candidate with a view class that keeps its outlet, plus the last candidate with a view class. |
| `Render.TargetEndsQueue` | dist/marionette.routing.js:201-213 | With activated routes, or with none (only the last route is a candidate), a target with a view class ends the queue. |
| `Render.ScanRegionNearest` | dist/marionette.routing.js:182-199 | Only strictly earlier positions are scanned. The nearest ancestor with a view and outlet not `false` decides: its outlet, or `No outlet region defined in <name>`. With no such ancestor, the result is the root region, or none. |
| `Render.ParentRegionIgnoresLaterViews` | dist/marionette.routing.js:185-197 | The views of the route itself and of later routes never affect its region. |
| `Render.RenderOne` | dist/marionette.routing.js:376-402 | An existing view is kept iff `updateView` accepts. Otherwise a new view is built. Without a region, a view not already rendered fails with `No root outlet region defined`. |
| `Render.RenderFromRendersInQueueOrder` | dist/marionette.routing.js:215-218 | Rendering keeps the earlier events and appends only `route:render` events, naming queued routes in queue order. A completed render leaves every queued route with a view. |
| `Render.RenderFromFrame` | dist/marionette.routing.js:215-218 | Rendering changes only the views of the queued routes. |
| `Render.ScanRegionShape` | dist/marionette.routing.js:182-199 | Whether a region is found, and any error, depend only on which ancestors have views and of which classes. The outlet's view identity does not matter. |
| `Render.RenderTwiceFailsAlike` | dist/marionette.routing.js:201-219 | Take a queue in chain order over distinct instances. Rendering it again from the state a failed render left fails with the same error. |
| `Render.QueueInChainOrder` | dist/marionette.routing.js:205-213 | The render queue keeps the chain order of its candidates and takes nothing else. |
| `Render.CandidatesInChainOrder` | dist/marionette.routing.js:201-203 | The render candidates, the activation suffix or the target, follow chain order. |
| `Resolution.CancelledTransitionOnlyAnnounces` | dist/marionette.routing.js:251-253 | A transition cancelled on entry only emits `before:transition`. |
| `Resolution.ActivationIsChangingSuffix` | dist/marionette.routing.js:272-301 | Past activation, `mnRoutes` holds one registered instance per route, in order, and `activating` is exactly `mnRoutes[changingIndex..]`. |
| `Resolution.ResolverKeepsRegistryValid` | dist/marionette.routing.js:274-293 | A transition keeps the registry valid and never removes or replaces an entry. |
| `Resolution.StoppedTransitionNeitherLoadsNorRenders` | dist/marionette.routing.js:304-311 | A transition that fails or is cancelled by the end of activation changes no view. After `before:transition` it records only deactivation events, then only activation events. |
| `Resolution.SettledTransitionLoadsThenRenders` | dist/marionette.routing.js:247-343 | After `before:transition`, a completed transition records deactivation events, then activation events, then each `load` once in chain order. It then makes one render pass over the queue. That pass adds only `route:render` events, in queue order, and gives the final views. The result settles: rejected with the render error exactly when rendering failed, resolved otherwise. |
| `Resolution.SettledQueueInChainOrder` | dist/marionette.routing.js:274-301 | Over routes with distinct names, a settled transition's instances have distinct identities and its render queue follows chain order. |
| `Resolution.LoadAndRenderKeeps` | dist/marionette.routing.js:310-341 | Loading and rendering change neither the registry nor the transition's lists. |
| `Routing.Router.constructor` | dist/marionette.routing.js:63-77 | A new router has an empty registry, only the routing middleware, and a root region iff one was given. |
| `Routing.Router.Use` | dist/marionette.routing.js:82-92 | Updates the middleware list as `UseMiddleware` states. |
| `Routing.Router.Destroy` | dist/marionette.routing.js:94-98 | Clears the registry. |
| `Routing.Router.CollectDeactivated` | dist/marionette.routing.js:261-267 | The backward loop builds exactly the deactivation list. |
| `Routing.Router.BuildRoutes` | dist/marionette.routing.js:271-294 | Updates registry, identities and `t.mnRoutes` exactly as `Build` does, with the same failure. |
| `Routing.Router.RunHooks` | dist/marionette.routing.js:223-236 | Trace, cancellation flag and failure are those of `RunAsyncMethod`. |
| `Routing.Router.RunSteps` | dist/marionette.routing.js:226-234 | The chained step loop produces `HookSteps`. |
| `Routing.Router.CallHook` | dist/marionette.routing.js:227-232 | One hook call: its invocation, the flag it sets, its rejection, and the after-event only when it is still not cancelled. |
| `Routing.Router.EmitBefores` | dist/marionette.routing.js:224-225 | Appends the `before:` events in order. |
| `Routing.Router.RunLoads` | dist/marionette.routing.js:313-327 | Appends one `load` invocation per loader, in chain order. |
| `Routing.Router.BuildRenderQueue` | dist/marionette.routing.js:205-213 | The `pop`/`push` loop computes `RenderQueue`. |
| `Routing.Router.GetParentRegion` | dist/marionette.routing.js:182-199 | The `while` loop with `routeIndex--` computes `ParentRegion`. |
| `Routing.Router.RenderView` | dist/marionette.routing.js:376-408 | Keeps, builds (recording the view and `route:render`) or fails, as `RenderOne` decides. |
| `Routing.Router.RenderViews` | dist/marionette.routing.js:201-219 | Renders the queue in order and stops at the first error, as `RenderFrom` states. |
| `Routing.Router.Next` | dist/marionette.routing.js:247-343 | The middleware step leaves router and transition in the state `RouteResolver` gives, with its outcome. |
| `Routing.Router.ResolveAndActivate` | dist/marionette.routing.js:274-343 | Build, activation, loads and render, as `AfterDeactivation` states. |
| `Routing.Router.LoadAndRenderViews` | dist/marionette.routing.js:310-341 | Loads, then one render and a settlement, as `LoadAndRender` states. |
| `Routing.Router.Done` | dist/marionette.routing.js:345-348 | Records the transition's `mnRoutes` as current and emits `transition`. |
| `Routing.Router.Cancel` | dist/marionette.routing.js:350-354 | Emits `transition:abort` unless the cancellation is a redirect. |
| `Routing.Router.Error` | dist/marionette.routing.js:356-359 | Emits `transition:abort`, then `transition:error`. |

## Left out

- UMD wrapper and library shims (dist/marionette.routing.js:1-21): module loading, with no logic.
- The singleton guard of the `Router` constructor (dist/marionette.routing.js:64-66, 76, 95): one router object per model; the global `router` variable is not modelled.
- Radio request handlers `transitionTo`, `isActive`, `generate` and `goBack` (dist/marionette.routing.js:106-121): they forward to Cherrytree or to `history.back()`.
- The Cherrytree base class: the transition's `prev`/`routes` chains and its cancellation flag are inputs, and redirect detection is a parameter of `Cancel`.
- Promise timing: hooks run one after the other. A newer navigation that cancels a transition is modelled as a property of the hook during which it happens. A hook's rejection, and each loader's outcome, are fixed per class.
- Synchronous exceptions thrown by hooks are treated like rejections.
- A `load` hook's cancellation of the transition is not modelled: the code never checks the flag after the loads.
- Constructing views (`ViewClass` checks, `viewOptions`), `listenToOnce`/`bindEvents`, and `region.show` destroying the view a region previously held (dist/marionette.routing.js:378-395, 403-407): these need Marionette's View and Region internals. A destroyed view's route keeps its view entry in the model.
- `Route.getContext` (dist/marionette.routing.js:410-418) and `_bindContext` (dist/marionette.routing.js:422-434): channels are reduced to the request names and event flag a class declares. A handler's reply value is not modelled: `Context.Request` gives the position of the parent it forwards to.
- ClassResolution.CreateMnRoute: classes are compared as values, so an application class identical in every field to the base `Route` counts as `Route` itself.
- `RouterLink` behaviour and its DOM helpers (dist/marionette.routing.js:437-447, 461-545): DOM, jQuery and MutationObserver glue. Only the pure `getAttributeValues` is modelled.
- test/render.js and src/index.js are not part of this model.
- The doubled `load` call: the model's middleware uses the intended load chain (each `load` called once). The doubled call of the code as written is modelled separately, in `LoadChainAsWritten`.
- The unsettled result: the model's middleware renders once and settles with that render's error. With loads, the code as written renders a second time and never settles after a render error. That is modelled separately, in `Resolution.SettleAsWritten` (see Findings).
- Routing.Transition.IsTarget: models the intended `isTarget` (`Context.IsTargetRoute`). The code as written answers true for every route while `mnRoutes` is `[]`; that is modelled in `Context.IsTargetAsWritten` (see Findings).
- Resolution.SettledQueueInChainOrder and Resolution.TransitionRenderErrorIsLost require the routes of the chain to have distinct names, as the URL engine's route names are; with a repeated name, the chain would hold one instance twice.

## Findings

| source | as written | input that shows it | evidently intended | confidence | as-written member | corrected member |
|---|---|---|---|---|---|---|
| dist/marionette.routing.js:316-321 | `prev.then(load).catch(load)` calls `load` again when this load itself rejects | two routes with `load`: the first resolves, the second rejects; the second `load` is called twice | each load called once, whatever the previous one did | medium, not executed | `Hooks.RejectingLoadCalledTwice` | `Hooks.LoadChainCallsEachOnce` |
| dist/marionette.routing.js:329-338 | with at least one loader, a render error in `then` re-runs `renderViews` in `catch`; it throws again, so `resolve` is never reached | a route with `load` whose view has no region to go to (`No root outlet region defined`) | render once and reject the transition with the render error | high, not executed | `Resolution.RenderErrorAfterLoadsIsLost` | `Resolution.SettledTransitionLoadsThenRenders` |
| dist/marionette.routing.js:242-244 | `isTarget` compares `indexOf(route)` with `length - 1` | while `mnRoutes` is still `[]` (set at line 272, during deactivation), any route: -1 equals -1 | a route is the target only if it is the last one in the chain | medium, not executed | `Context.EmptyChainMakesEveryRouteTarget` | `Context.IsTargetRouteIsLast` |
