/**
 * Data model of the routing layer: the route descriptors the URL engine produces for a
 * transition, the route classes an application defines, the route instances the router
 * creates from them, and the errors and notifications of a transition.
 *
 * Views, regions and the notification channel are abstract tokens: a view class only says
 * whether its views define an `outlet` region and whether a freshly built view is already
 * rendered; the channel is an append-only trace of events.
 */
module Routes {
  import opened Wrappers

  /** A view class: whether its views define the `outlet` region and whether a freshly
      constructed view is already rendered (it attached to existing markup). */
  datatype ViewClass = ViewClass(name: string, hasOutlet: bool, prerendered: bool)

  /** The framework's plain view class, used when a route renders without its own. */
  const DefaultView := ViewClass("View", false, false)

  /** What calling one user-supplied lifecycle hook does: whether the deferred value it
      returns rejects, and whether a newer navigation cancels the transition meanwhile. */
  datatype Hook = Hook(rejects: bool, cancels: bool)

  /** A hook that resolves at once and cancels nothing (the base class's activate/deactivate). */
  const Quiet := Hook(false, false)

  /** A route class defined by the application: its prototype's view class, its map of
      child route classes, its hooks (`load` only when it defines one), whether `updateView`
      accepts an update of the existing view, and its context channel declarations. */
  datatype RouteClass = RouteClass(
    name: string,
    viewClass: Option<ViewClass>,
    childRoutes: map<string, ClassRef>,
    activate: Hook,
    deactivate: Hook,
    load: Option<Hook>,
    updatesView: bool,
    contextRequests: Option<set<string>>,
    contextEvents: bool)

  /** A route class value: the constructor itself, or a module object whose `default`
      export is the constructor (`__esModule`). */
  datatype ClassValue = Ctor(cls: RouteClass) | EsModule(default: RouteClass)

  /** What a route definition or a `childRoutes` entry names: a class value, or a function
      that is not a route class and yields one, possibly through a deferred value. */
  datatype ClassRef = Direct(value: ClassValue) | Loader(outcome: LoaderOutcome)

  /** The settled result of calling a class loader: a value (possibly none) or a rejection. */
  datatype LoaderOutcome = Yields(result: Option<ClassValue>) | Fails

  /** The base route class, used when a route declares only a view class. */
  const BaseRoute := RouteClass("Route", None, map[], Quiet, Quiet, None, false, None, false)

  /** The options a route definition carries: `routeClass`, `viewClass`, the `viewClass` held in
      `routeOptions`, and whether `outlet` is set to `false`. */
  datatype RouteOptions = RouteOptions(
    routeClass: Option<ClassRef>,
    viewClass: Option<ViewClass>,
    routeOptionsViewClass: Option<ViewClass>,
    outletOff: bool)

  /** One entry of a route chain as the URL engine produces it. */
  datatype Descriptor = Descriptor(name: string, path: string, params: map<string, string>, options: RouteOptions)

  /** The `$config` snapshot an instance keeps of its descriptor. */
  datatype RouteConfig = RouteConfig(name: string, path: string, options: RouteOptions)

  /** Identity of a route instance (distinct objects have distinct ids). */
  type RouteId = nat

  /** A live route instance: identity, configuration, class, and the view class it renders. */
  datatype RouteInstance = RouteInstance(id: RouteId, config: RouteConfig, cls: RouteClass, viewClass: Option<ViewClass>)

  datatype HookKind = Activate | Deactivate | Load

  /** The hook of a given kind on an instance's class (a class without `load` resolves at once). */
  function HookOf(r: RouteInstance, kind: HookKind): Hook
  {
    match kind
    case Activate => r.cls.activate
    case Deactivate => r.cls.deactivate
    case Load => if r.cls.load.Some? then r.cls.load.value else Quiet
  }

  /** The errors that end a transition. */
  datatype Error =
    | UnableToCreateRoute(route: string)
    | ClassLoaderRejected(route: string)
    /** The base route class named directly is called as a class loader, and running its
        constructor without `new` throws. */
    | BaseRouteCalled(route: string)
    | HookRejected(kind: HookKind, route: string)
    | NoOutletRegionIn(route: string)
    | NoRootOutletRegion

  /** Observable actions of a transition, in order: notifications on the router channel
      (`before:transition`, `before:<hook>`, `<hook>`, `route:render`, `transition`,
      `transition:abort`, `transition:error`) and invocations of user hooks. */
  datatype Event =
    | BeforeTransition
    | Before(kind: HookKind, route: RouteId)
    | Invoked(kind: HookKind, route: RouteId)
    | After(kind: HookKind, route: RouteId)
    | RouteRender(route: RouteId)
    | TransitionDone
    | TransitionAbort
    | TransitionError

  /** The ids of a list of instances, in order. */
  function Ids(rs: seq<RouteInstance>): (ids: seq<RouteId>)
    ensures |ids| == |rs|
    ensures forall k :: 0 <= k < |rs| ==> ids[k] == rs[k].id
  {
    if rs == [] then [] else [rs[0].id] + Ids(rs[1..])
  }

  /** JavaScript's `indexOf`: the first position of `x`, or -1. */
  function IndexOf<T(==)>(s: seq<T>, x: T): (i: int)
    ensures -1 <= i < |s|
    ensures i >= 0 ==> s[i] == x && x !in s[..i]
    ensures i == -1 <==> x !in s
  {
    if |s| == 0 then -1
    else if s[0] == x then 0
    else var j := IndexOf(s[1..], x); if j < 0 then -1 else j + 1
  }
}
