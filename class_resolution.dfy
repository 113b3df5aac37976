/**
 * Route-class resolution and instance creation (`findRouteClass`, `createRouteInstance`,
 * `createMnRoute`). A route's class is its explicit `routeClass`, else the entry for its name
 * in the `childRoutes` map of the nearest registered ancestor, else — when a view class is
 * given — the base route class. A class reference that is a loader function is called and its
 * settled result used instead.
 */
module ClassResolution {
  import opened Wrappers
  import opened Routes

  /** The ancestor at chain position `j` is registered and its class maps `name` to a child class. */
  predicate Provides(routes: seq<Descriptor>, j: nat, name: string, registry: map<string, RouteInstance>)
    requires j < |routes|
  {
    routes[j].name in registry && name in registry[routes[j].name].cls.childRoutes
  }

  /** The child-route entry for `name` of the nearest provider among `routes[..k]`, scanning from `k-1` down. */
  function FromAncestors(routes: seq<Descriptor>, k: nat, name: string, registry: map<string, RouteInstance>): Option<ClassRef>
    requires k <= |routes|
  {
    if k == 0 then None
    else if Provides(routes, k - 1, name, registry) then Some(registry[routes[k - 1].name].cls.childRoutes[name])
    else FromAncestors(routes, k - 1, name, registry)
  }

  /** The class reference for the route named `name` at position `index` of `routes`. */
  function FindRouteClass(options: RouteOptions, name: string, index: nat, routes: seq<Descriptor>,
                          registry: map<string, RouteInstance>): Option<ClassRef>
    requires index <= |routes|
  {
    if options.routeClass.Some? then options.routeClass
    else FromAncestors(routes, index, name, registry)
  }

  /** The nearest provider below `k`: found iff one exists, and no provider lies between it and `k`. */
  lemma {:induction false} FromAncestorsIsNearest(routes: seq<Descriptor>, k: nat, name: string,
                                                  registry: map<string, RouteInstance>)
    requires k <= |routes|
    ensures FromAncestors(routes, k, name, registry).None? <==>
            forall j :: 0 <= j < k ==> !Provides(routes, j, name, registry)
    ensures FromAncestors(routes, k, name, registry).Some? ==>
            exists j :: 0 <= j < k && Provides(routes, j, name, registry)
                     && FromAncestors(routes, k, name, registry).value == registry[routes[j].name].cls.childRoutes[name]
                     && forall j' :: j < j' < k ==> !Provides(routes, j', name, registry)
  {
    if k > 0 && !Provides(routes, k - 1, name, registry) {
      FromAncestorsIsNearest(routes, k - 1, name, registry);
      if FromAncestors(routes, k, name, registry).Some? {
        var j :| 0 <= j < k - 1 && Provides(routes, j, name, registry)
                 && FromAncestors(routes, k - 1, name, registry).value == registry[routes[j].name].cls.childRoutes[name]
                 && forall j' :: j < j' < k - 1 ==> !Provides(routes, j', name, registry);
        assert forall j' :: j < j' < k ==> !Provides(routes, j', name, registry);
      }
    }
  }

  /** Resolution order: an explicit `routeClass` wins; otherwise the nearest registered ancestor
      (searching from `index - 1` down to 0) whose `childRoutes` has an entry for the name
      supplies it; otherwise there is no class. */
  lemma FindRouteClassOrder(options: RouteOptions, name: string, index: nat, routes: seq<Descriptor>,
                            registry: map<string, RouteInstance>)
    requires index <= |routes|
    ensures options.routeClass.Some? ==> FindRouteClass(options, name, index, routes, registry) == options.routeClass
    ensures options.routeClass.None? ==>
      (FindRouteClass(options, name, index, routes, registry).None? <==>
       forall j :: 0 <= j < index ==> !Provides(routes, j, name, registry))
    ensures options.routeClass.None? && FindRouteClass(options, name, index, routes, registry).Some? ==>
      exists j :: 0 <= j < index && Provides(routes, j, name, registry)
               && FindRouteClass(options, name, index, routes, registry).value == registry[routes[j].name].cls.childRoutes[name]
               && forall j' :: j < j' < index ==> !Provides(routes, j', name, registry)
  {
    FromAncestorsIsNearest(routes, index, name, registry);
  }

  /** The view class handed to the route constructor: `viewClass` of the options, which
      overrides the one in `routeOptions`. */
  function ConstructorViewClass(options: RouteOptions): Option<ViewClass>
  {
    if options.viewClass.Some? then options.viewClass else options.routeOptionsViewClass
  }

  /** The constructor a class value stands for (the `default` export of a module object). */
  function Constructor(v: ClassValue): RouteClass
  {
    match v
    case Ctor(c) => c
    case EsModule(c) => c
  }

  /** `createRouteInstance`: instantiate the class, or the base route class when only a view
      class is given; nothing when neither is. The instance keeps the view class passed in its
      options and otherwise the one its class declares. */
  function CreateRouteInstance(cls: Option<ClassValue>, options: RouteOptions, config: RouteConfig, id: RouteId): (r: Option<RouteInstance>)
    ensures r.Some? <==> cls.Some? || ConstructorViewClass(options).Some?
    ensures r.Some? ==> r.value.id == id && r.value.config == config
    ensures r.Some? && cls.Some? ==> r.value.cls == Constructor(cls.value)
    ensures r.Some? && cls.None? ==> r.value.cls == BaseRoute && r.value.viewClass == ConstructorViewClass(options)
    ensures r.Some? && ConstructorViewClass(options).Some? ==> r.value.viewClass == ConstructorViewClass(options)
    ensures r.Some? && ConstructorViewClass(options).None? ==> r.value.viewClass == r.value.cls.viewClass
  {
    var viewClass := ConstructorViewClass(options);
    var routeClass := if cls.Some? then Constructor(cls.value) else BaseRoute;
    if cls.None? && viewClass.None? then None
    else Some(RouteInstance(id, config, routeClass, if viewClass.Some? then viewClass else routeClass.viewClass))
  }

  /** Result of `createMnRoute` once any deferred class has settled: an instance, none, a
      rejected class loader, or the exception of the base route class called as a loader. */
  datatype Creation = Created(instance: RouteInstance) | NotCreated | LoaderRejected | BaseRouteThrows

  /** The configuration snapshot an instance takes of its descriptor. */
  function ConfigOf(route: Descriptor): RouteConfig
  {
    RouteConfig(route.name, route.path, route.options)
  }

  /** `createMnRoute` for `routes[index]`, giving a new instance the identity `id`. A function
      that is not a subclass of the base route class is called as a class loader; the base
      class itself is not its own subclass, so naming it directly calls it as a loader, which
      throws. A loader's result is instantiated only when it yields a class: a loader that
      yields nothing produces no instance even when the route has a view class. */
  function CreateMnRoute(index: nat, routes: seq<Descriptor>, registry: map<string, RouteInstance>, id: RouteId): (c: Creation)
    requires index < |routes|
    ensures c.Created? ==> c.instance.id == id && c.instance.config == ConfigOf(routes[index])
    ensures c.Created? ==> c.instance.config.name == routes[index].name
  {
    var route := routes[index];
    match FindRouteClass(route.options, route.name, index, routes, registry)
    case Some(Loader(Fails)) => LoaderRejected
    case Some(Loader(Yields(None))) => NotCreated
    case Some(Loader(Yields(Some(v)))) => Created(CreateRouteInstance(Some(v), route.options, ConfigOf(route), id).value)
    case Some(Direct(v)) =>
      if v == Ctor(BaseRoute) then BaseRouteThrows
      else Created(CreateRouteInstance(Some(v), route.options, ConfigOf(route), id).value)
    case None =>
      var r := CreateRouteInstance(None, route.options, ConfigOf(route), id);
      if r.Some? then Created(r.value) else NotCreated
  }

  /** `c` is an instance of the class `v` stands for, showing the options' view class when
      they give one and the class's own otherwise. */
  ghost predicate InstanceOf(c: Creation, v: ClassValue, options: RouteOptions)
  {
    && c.Created? && c.instance.cls == Constructor(v)
    && c.instance.viewClass == (if ConstructorViewClass(options).Some? then ConstructorViewClass(options) else Constructor(v).viewClass)
  }

  /** What a class reference creates: a rejecting loader rejects, a loader yielding nothing
      creates nothing, the base route class named directly throws, and any other class, given
      directly or yielded by a loader, is instantiated. */
  ghost predicate CreatesFrom(ref: ClassRef, options: RouteOptions, c: Creation)
  {
    match ref
    case Loader(Fails) => c == LoaderRejected
    case Loader(Yields(None)) => c == NotCreated
    case Loader(Yields(Some(v))) => InstanceOf(c, v, options)
    case Direct(v) => if v == Ctor(BaseRoute) then c == BaseRouteThrows else InstanceOf(c, v, options)
  }

  /** What `createMnRoute` produces, by where the class comes from: the explicit `routeClass`;
      otherwise the `childRoutes` entry of the nearest registered ancestor that has one; and
      when no ancestor has one, a base route instance exactly when a view class is given. */
  lemma CreateMnRouteOutcome(index: nat, routes: seq<Descriptor>, registry: map<string, RouteInstance>, id: RouteId)
    requires index < |routes|
    ensures var route, c := routes[index], CreateMnRoute(index, routes, registry, id);
            && (route.options.routeClass.Some? ==> CreatesFrom(route.options.routeClass.value, route.options, c))
            && (route.options.routeClass.None? && (forall j :: 0 <= j < index ==> !Provides(routes, j, route.name, registry)) ==>
                  if ConstructorViewClass(route.options).Some?
                  then c.Created? && c.instance.cls == BaseRoute && c.instance.viewClass == ConstructorViewClass(route.options)
                  else c == NotCreated)
            && (route.options.routeClass.None? ==>
                  forall j :: 0 <= j < index && Provides(routes, j, route.name, registry)
                              && (forall j' :: j < j' < index ==> !Provides(routes, j', route.name, registry)) ==>
                    CreatesFrom(registry[routes[j].name].cls.childRoutes[route.name], route.options, c))
  {
    var route := routes[index];
    FindRouteClassOrder(route.options, route.name, index, routes, registry);
    if route.options.routeClass.None? {
      forall j | 0 <= j < index && Provides(routes, j, route.name, registry)
                 && (forall j' :: j < j' < index ==> !Provides(routes, j', route.name, registry))
        ensures FindRouteClass(route.options, route.name, index, routes, registry) == Some(registry[routes[j].name].cls.childRoutes[route.name])
      {
        var k :| 0 <= k < index && Provides(routes, k, route.name, registry)
                 && FindRouteClass(route.options, route.name, index, routes, registry).value == registry[routes[k].name].cls.childRoutes[route.name]
                 && forall j' :: k < j' < index ==> !Provides(routes, j', route.name, registry);
        assert k == j;
      }
    }
  }
}
