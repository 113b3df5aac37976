/**
 * Lookups over a route chain used by routes and transitions: the route context's parent
 * routes and its nearest-ancestor request and nearest-first trigger, the transition's
 * `isActivating` and `isTarget` queries, the chain's instances by name (`getMnRoutes`),
 * middleware insertion (`Router.use`) and the prefix-stripping attribute reader of route links.
 */
module Context {
  import opened Wrappers
  import opened Routes
  import opened Registry

  // ---------------------------------------------------------------- route context

  /** The routes before `route` in its chain. For a route absent from the chain, `slice(0, -1)`
      yields every route but the last. */
  function ParentRoutes(routes: seq<RouteInstance>, route: RouteInstance): (parents: seq<RouteInstance>)
    ensures route in routes ==> parents == routes[..IndexOf(routes, route)] && route !in parents
    ensures route !in routes ==> parents == if |routes| > 0 then routes[..|routes| - 1] else []
  {
    var i := IndexOf(routes, route);
    if i >= 0 then routes[..i]
    else if |routes| > 0 then routes[..|routes| - 1]
    else []
  }

  /** A route has a context channel when its class declares context requests or events. */
  predicate HasChannel(r: RouteInstance)
  {
    r.cls.contextRequests.Some? || r.cls.contextEvents
  }

  /** A route answers `name` when its class binds a request handler for it. */
  predicate Answers(r: RouteInstance, name: string)
  {
    r.cls.contextRequests.Some? && name in r.cls.contextRequests.value
  }

  /** A route whose channel has no request table: the channel exists (events only, or an empty
      request map) but no handler was ever bound, so the channel's `_requests` is undefined. */
  predicate LacksRequestTable(r: RouteInstance)
  {
    HasChannel(r) && (r.cls.contextRequests.None? || r.cls.contextRequests.value == {})
  }

  /** A parent where the request search ends: it answers, or reading its request table throws. */
  predicate Stops(r: RouteInstance, name: string)
  {
    Answers(r, name) || LacksRequestTable(r)
  }

  /** How `request` ends: forwarded to the parent at `at`, answered by nobody, or a `TypeError`
      raised while looking up the request table of the parent at `at`. */
  datatype RequestResult = Answered(at: nat) | Unanswered | RequestThrows(at: nat)

  /** The outcome of asking the parents from the nearest (highest position) to the farthest. */
  function NearestResponder(parents: seq<RouteInstance>, name: string): RequestResult
  {
    if parents == [] then Unanswered
    else
      var p := parents[|parents| - 1];
      if LacksRequestTable(p) then RequestThrows(|parents| - 1)
      else if Answers(p, name) then Answered(|parents| - 1)
      else NearestResponder(parents[..|parents| - 1], name)
  }

  /** The search ends at the nearest parent that answers or has a channel without request
      table: it forwards to that parent when it answers and throws otherwise; nobody answers
      exactly when no parent ends the search. */
  lemma {:induction false} NearestResponderIsNearest(parents: seq<RouteInstance>, name: string)
    ensures var r := NearestResponder(parents, name);
            && (r.Unanswered? <==> forall j :: 0 <= j < |parents| ==> !Stops(parents[j], name))
            && (!r.Unanswered? ==> r.at < |parents| && Stops(parents[r.at], name)
                                   && forall j :: r.at < j < |parents| ==> !Stops(parents[j], name))
            && (r.Answered? ==> Answers(parents[r.at], name))
            && (r.RequestThrows? ==> LacksRequestTable(parents[r.at]) && !Answers(parents[r.at], name))
    decreases |parents|
  {
    if parents != [] && !Stops(parents[|parents| - 1], name) {
      var init := parents[..|parents| - 1];
      NearestResponderIsNearest(init, name);
      assert forall j :: 0 <= j < |init| ==> init[j] == parents[j];
    }
  }

  /** `request`: ask the parents from the nearest to the farthest; a parent with a channel
      whose request table is missing makes the lookup throw. */
  method Request(parents: seq<RouteInstance>, name: string) returns (result: RequestResult)
    ensures result == NearestResponder(parents, name)
  {
    var i := |parents| - 1;
    assert parents[..i + 1] == parents;
    while i >= 0
      invariant -1 <= i < |parents|
      invariant NearestResponder(parents, name) == NearestResponder(parents[..i + 1], name)
    {
      var cls := parents[i].cls;
      if cls.contextRequests.Some? || cls.contextEvents {
        if cls.contextRequests.None? || cls.contextRequests.value == {} {
          return RequestThrows(i);
        }
        if name in cls.contextRequests.value {
          return Answered(i);
        }
      }
      assert parents[..i + 1][..i] == parents[..i];
      i := i - 1;
    }
    return Unanswered;
  }

  /** The parents with a channel among positions `c` and above, nearest (highest) first. */
  function Recipients(parents: seq<RouteInstance>, c: nat): seq<RouteInstance>
    decreases |parents| - c
  {
    if c >= |parents| then []
    else Recipients(parents, c + 1) + (if HasChannel(parents[c]) then [parents[c]] else [])
  }

  /** The positions the recipients come from, in the same order. */
  function RecipientPositions(parents: seq<RouteInstance>, c: nat): seq<nat>
    decreases |parents| - c
  {
    if c >= |parents| then []
    else RecipientPositions(parents, c + 1) + (if HasChannel(parents[c]) then [c] else [])
  }

  /** `trigger` reaches every parent with a channel exactly once, from the nearest to the farthest. */
  lemma {:induction false} RecipientsNearestFirst(parents: seq<RouteInstance>, c: nat)
    ensures var rs, ix := Recipients(parents, c), RecipientPositions(parents, c);
            && |rs| == |ix|
            && (forall k :: 0 <= k < |ix| ==> c <= ix[k] < |parents| && HasChannel(parents[ix[k]]) && rs[k] == parents[ix[k]])
            && (forall k1, k2 :: 0 <= k1 < k2 < |ix| ==> ix[k1] > ix[k2])
            && (forall j :: c <= j < |parents| && HasChannel(parents[j]) ==> j in ix)
  {
    RecipientsAtPositions(parents, c);
    RecipientPositionsDecrease(parents, c);
    RecipientPositionsComplete(parents, c);
  }

  lemma {:induction false} RecipientsAtPositions(parents: seq<RouteInstance>, c: nat)
    ensures var rs, ix := Recipients(parents, c), RecipientPositions(parents, c);
            && |rs| == |ix|
            && (forall k :: 0 <= k < |ix| ==> c <= ix[k] < |parents| && HasChannel(parents[ix[k]]) && rs[k] == parents[ix[k]])
    decreases |parents| - c
  {
    if c < |parents| {
      RecipientsAtPositions(parents, c + 1);
    }
  }

  lemma {:induction false} RecipientPositionsDecrease(parents: seq<RouteInstance>, c: nat)
    ensures var ix := RecipientPositions(parents, c);
            forall k1, k2 :: 0 <= k1 < k2 < |ix| ==> ix[k1] > ix[k2]
    decreases |parents| - c
  {
    if c < |parents| {
      RecipientPositionsDecrease(parents, c + 1);
      RecipientsAtPositions(parents, c + 1);
    }
  }

  lemma {:induction false} RecipientPositionsComplete(parents: seq<RouteInstance>, c: nat)
    ensures var ix := RecipientPositions(parents, c);
            forall j :: c <= j < |parents| && HasChannel(parents[j]) ==> j in ix
    decreases |parents| - c
  {
    if c < |parents| {
      RecipientPositionsComplete(parents, c + 1);
    }
  }

  /** `trigger`: deliver the event on the channel of every parent that has one, nearest first;
      the result lists the routes reached, in delivery order. */
  method Trigger(parents: seq<RouteInstance>) returns (reached: seq<RouteInstance>)
    ensures reached == Recipients(parents, 0)
  {
    reached := [];
    var i := |parents| - 1;
    while i >= 0
      invariant -1 <= i < |parents|
      invariant reached == Recipients(parents, i + 1)
    {
      if HasChannel(parents[i]) {
        reached := reached + [parents[i]];
      }
      i := i - 1;
    }
  }

  // ---------------------------------------------------------------- chain lookups

  /** `getMnRoutes`: the registered instance of each route of a chain, when there is one. */
  function GetMnRoutes(routes: seq<Descriptor>, registry: map<string, RouteInstance>): (rs: seq<Option<RouteInstance>>)
    ensures |rs| == |routes|
    ensures forall j :: 0 <= j < |routes| ==> (rs[j].Some? <==> routes[j].name in registry)
    ensures forall j :: 0 <= j < |routes| && rs[j].Some? ==> rs[j].value == registry[routes[j].name]
  {
    seq(|routes|, j requires 0 <= j < |routes| => if routes[j].name in registry then Some(registry[routes[j].name]) else None)
  }

  /** After a successful build the chain's lookups give back exactly the built instances. */
  lemma GetMnRoutesAfterBuild(routes: seq<Descriptor>, registry: map<string, RouteInstance>, nextId: nat)
    requires RegistryValid(registry, nextId)
    requires Build(routes, |routes|, registry, nextId).failure.None?
    ensures var st := Build(routes, |routes|, registry, nextId).state;
            var rs := GetMnRoutes(routes, st.registry);
            |st.built| == |routes| && forall j :: 0 <= j < |routes| ==> rs[j] == Some(st.built[j])
  {
    BuiltChainMatchesRegistry(routes, registry, nextId);
  }

  /** `isActivating`: the route is in the activation list, once that list exists. */
  function IsActivatingRoute(activating: Option<seq<RouteInstance>>, route: RouteInstance): (b: bool)
    ensures b <==> activating.Some? && route in activating.value
  {
    activating.Some? && IndexOf(activating.value, route) != -1
  }

  /** `isTarget` as written: the first position of the route is the last position of the chain. */
  function IsTargetAsWritten(mnRoutes: Option<seq<RouteInstance>>, route: RouteInstance): bool
  {
    mnRoutes.Some? && IndexOf(mnRoutes.value, route) == |mnRoutes.value| - 1
  }

  /** While `mnRoutes` is still the empty list (during deactivation), every route counts as
      the target: the missing route's -1 equals the empty chain's last position. */
  lemma EmptyChainMakesEveryRouteTarget(route: RouteInstance)
    ensures IsTargetAsWritten(Some([]), route)
  {
  }

  /** `isTarget` as intended: the route is in the chain at its last position. */
  function IsTargetRoute(mnRoutes: Option<seq<RouteInstance>>, route: RouteInstance): (b: bool)
    ensures b ==> mnRoutes.Some? && |mnRoutes.value| > 0 && mnRoutes.value[|mnRoutes.value| - 1] == route
    ensures b ==> route in mnRoutes.value
  {
    mnRoutes.Some? && IndexOf(mnRoutes.value, route) >= 0 && IndexOf(mnRoutes.value, route) == |mnRoutes.value| - 1
  }

  /** In a chain without repeated instances, the target is exactly the last route; no route is
      the target of an empty chain. The intended query agrees with the source's on every
      non-empty chain. */
  lemma IsTargetRouteIsLast(mnRoutes: seq<RouteInstance>, route: RouteInstance)
    requires forall i, j :: 0 <= i < j < |mnRoutes| ==> mnRoutes[i] != mnRoutes[j]
    ensures IsTargetRoute(Some(mnRoutes), route) <==> |mnRoutes| > 0 && mnRoutes[|mnRoutes| - 1] == route
    ensures |mnRoutes| > 0 ==> IsTargetRoute(Some(mnRoutes), route) == IsTargetAsWritten(Some(mnRoutes), route)
  {
    if |mnRoutes| > 0 && mnRoutes[|mnRoutes| - 1] == route {
      assert route in mnRoutes;
    }
  }

  // ---------------------------------------------------------------- middleware list

  /** The router's own middleware, and middleware an application adds. */
  datatype Middleware = RoutingMiddleware | Custom(id: nat)

  /** `use`: append, or with `before` insert in front of the routing middleware. When the routing
      middleware is absent, `splice(-1, 0, m)` inserts in front of the last entry. */
  function UseMiddleware(middleware: seq<Middleware>, m: Middleware, before: bool): seq<Middleware>
  {
    if !before then middleware + [m]
    else
      var i := IndexOf(middleware, RoutingMiddleware);
      var start := if i >= 0 then i else if |middleware| > 0 then |middleware| - 1 else 0;
      middleware[..start] + [m] + middleware[start..]
  }

  /** Without `before` the middleware runs last; with it, it runs immediately before the routing
      middleware. Nothing else moves, and the routing middleware is kept. */
  lemma UseMiddlewarePlacement(middleware: seq<Middleware>, m: Middleware, before: bool)
    requires RoutingMiddleware in middleware
    ensures var r := UseMiddleware(middleware, m, before);
            && |r| == |middleware| + 1
            && multiset(r) == multiset(middleware) + multiset{m}
            && RoutingMiddleware in r
            && (!before ==> r[..|middleware|] == middleware && r[|middleware|] == m)
            && (before ==> var i := IndexOf(middleware, RoutingMiddleware);
                           r[..i] == middleware[..i] && r[i] == m && r[i + 1..] == middleware[i..] && r[i + 1] == RoutingMiddleware)
  {
    var r := UseMiddleware(middleware, m, before);
    if before {
      var i := IndexOf(middleware, RoutingMiddleware);
      assert middleware == middleware[..i] + middleware[i..];
      assert r[i + 1..] == middleware[i..];
    } else {
      assert r[..|middleware|] == middleware;
    }
  }

  // ---------------------------------------------------------------- link attributes

  /** An element attribute of a route link. */
  datatype Attribute = Attribute(name: string, value: string)

  /** The attribute's name starts with the prefix and, stripped of it, is `key`. */
  predicate Names(a: Attribute, prefix: string, key: string)
  {
    prefix <= a.name && a.name[|prefix|..] == key
  }

  /** The values of the attributes whose names start with `prefix`, keyed by the rest of the
      name, written over `defaults` in attribute order. */
  function AttributeValues(attributes: seq<Attribute>, prefix: string, defaults: map<string, string>): map<string, string>
  {
    if attributes == [] then defaults
    else
      var a := attributes[|attributes| - 1];
      var m := AttributeValues(attributes[..|attributes| - 1], prefix, defaults);
      if prefix <= a.name then m[a.name[|prefix|..] := a.value] else m
  }

  /** A key gets the value of the last attribute naming it; a key no attribute names keeps its
      default (or stays absent). */
  lemma {:induction false} LastAttributeWins(attributes: seq<Attribute>, prefix: string, defaults: map<string, string>, key: string)
    ensures var m := AttributeValues(attributes, prefix, defaults);
            && ((forall i :: 0 <= i < |attributes| ==> !Names(attributes[i], prefix, key)) ==>
                  (key in m <==> key in defaults) && (key in m ==> m[key] == defaults[key]))
            && (forall i :: 0 <= i < |attributes| && Names(attributes[i], prefix, key)
                            && (forall j :: i < j < |attributes| ==> !Names(attributes[j], prefix, key)) ==>
                  key in m && m[key] == attributes[i].value)
  {
    UnnamedKeepsDefault(attributes, prefix, defaults, key);
    forall i | 0 <= i < |attributes| && Names(attributes[i], prefix, key)
               && (forall j :: i < j < |attributes| ==> !Names(attributes[j], prefix, key))
      ensures var m := AttributeValues(attributes, prefix, defaults); key in m && m[key] == attributes[i].value
    {
      LastNamingWins(attributes, prefix, defaults, key, i);
    }
  }

  /** A key no attribute names keeps its default, or stays absent. */
  lemma {:induction false} UnnamedKeepsDefault(attributes: seq<Attribute>, prefix: string, defaults: map<string, string>, key: string)
    ensures var m := AttributeValues(attributes, prefix, defaults);
            (forall i :: 0 <= i < |attributes| ==> !Names(attributes[i], prefix, key)) ==>
              (key in m <==> key in defaults) && (key in m ==> m[key] == defaults[key])
    decreases |attributes|
  {
    if attributes != [] {
      var n := |attributes| - 1;
      var init := attributes[..n];
      UnnamedKeepsDefault(init, prefix, defaults, key);
      if forall i :: 0 <= i < |attributes| ==> !Names(attributes[i], prefix, key) {
        assert forall j :: 0 <= j < n ==> init[j] == attributes[j];
        assert !Names(attributes[n], prefix, key);
      }
    }
  }

  /** The last attribute naming a key decides its value. */
  lemma {:induction false} LastNamingWins(attributes: seq<Attribute>, prefix: string, defaults: map<string, string>, key: string, i: nat)
    requires i < |attributes| && Names(attributes[i], prefix, key)
    requires forall j :: i < j < |attributes| ==> !Names(attributes[j], prefix, key)
    ensures var m := AttributeValues(attributes, prefix, defaults); key in m && m[key] == attributes[i].value
    decreases |attributes|
  {
    var n := |attributes| - 1;
    var init, a := attributes[..n], attributes[n];
    if i < n {
      assert forall j :: 0 <= j < n ==> init[j] == attributes[j];
      LastNamingWins(init, prefix, defaults, key, i);
      assert !Names(a, prefix, key);
    }
  }

  /** `getAttributeValues`: walk the attributes in order and record each prefixed one. */
  method GetAttributeValues(attributes: seq<Attribute>, prefix: string, defaults: map<string, string>) returns (result: map<string, string>)
    ensures result == AttributeValues(attributes, prefix, defaults)
  {
    result := defaults;
    for i := 0 to |attributes|
      invariant result == AttributeValues(attributes[..i], prefix, defaults)
    {
      var attr := attributes[i];
      assert attributes[..i + 1][..i] == attributes[..i];
      if prefix <= attr.name {
        var paramName := attr.name[|prefix|..];
        result := result[paramName := attr.value];
      }
    }
    assert attributes[..|attributes|] == attributes;
  }
}
