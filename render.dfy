/**
 * Which routes render a view after a transition and where it goes (`renderViews`,
 * `getParentRegion`, and the part of `Route.renderView` that decides between reusing a view,
 * building one, and failing for want of a region).
 */
module Render {
  import opened Wrappers
  import opened Routes

  // ---------------------------------------------------------------- the render queue

  /** The routes offered for rendering: the activated ones, or the target (last) route when
      nothing was activated. */
  function RenderCandidates(mnRoutes: seq<RouteInstance>, activated: seq<RouteInstance>): seq<RouteInstance>
  {
    if |activated| > 0 then activated
    else if |mnRoutes| > 0 then [mnRoutes[|mnRoutes| - 1]]
    else []
  }

  predicate HasView(r: RouteInstance)
  {
    r.viewClass.Some?
  }

  predicate OutletOff(r: RouteInstance)
  {
    r.config.options.outletOff
  }

  /** One step of the reduction: a route with a view class is pushed, after popping the previous
      tail when that one set `outlet: false`. */
  function QueueStep(memo: seq<RouteInstance>, r: RouteInstance): seq<RouteInstance>
  {
    if !HasView(r) then memo
    else (if |memo| > 0 && OutletOff(memo[|memo| - 1]) then memo[..|memo| - 1] else memo) + [r]
  }

  /** The render queue: the candidates reduced in order by `QueueStep`. */
  function RenderQueue(candidates: seq<RouteInstance>): seq<RouteInstance>
  {
    if candidates == [] then []
    else QueueStep(RenderQueue(candidates[..|candidates| - 1]), candidates[|candidates| - 1])
  }

  /** The candidates that have a view class, in order. */
  function WithViews(s: seq<RouteInstance>): seq<RouteInstance>
  {
    if s == [] then [] else WithViews(s[..|s| - 1]) + (if HasView(s[|s| - 1]) then [s[|s| - 1]] else [])
  }

  /** The routes that do not set `outlet: false`, in order. */
  function KeepingOutlets(s: seq<RouteInstance>): seq<RouteInstance>
  {
    if s == [] then [] else KeepingOutlets(s[..|s| - 1]) + (if OutletOff(s[|s| - 1]) then [] else [s[|s| - 1]])
  }

  /** Reference definition of the queue: of the candidates with a view, every one that keeps its
      outlet, and the last one in any case. */
  function QueueReference(candidates: seq<RouteInstance>): seq<RouteInstance>
  {
    var v := WithViews(candidates);
    if v == [] then [] else KeepingOutlets(v[..|v| - 1]) + [v[|v| - 1]]
  }

  /** The queue keeps only candidates with a view class, in candidate order; a candidate with
      `outlet: false` is dropped exactly when a later candidate has a view. */
  lemma {:induction false} RenderQueueIsReference(candidates: seq<RouteInstance>)
    ensures RenderQueue(candidates) == QueueReference(candidates)
    decreases |candidates|
  {
    if candidates != [] {
      var init, x := candidates[..|candidates| - 1], candidates[|candidates| - 1];
      RenderQueueIsReference(init);
      var v := WithViews(init);
      assert WithViews(candidates) == v + (if HasView(x) then [x] else []);
      assert RenderQueue(candidates) == QueueStep(RenderQueue(init), x);
      if HasView(x) {
        var w := v + [x];
        assert w[..|w| - 1] == v && w[|w| - 1] == x;
        assert QueueReference(candidates) == KeepingOutlets(v) + [x];
        if v != [] {
          assert RenderQueue(init) == KeepingOutlets(v[..|v| - 1]) + [v[|v| - 1]];
          PushOntoReference(v, x);
        } else {
          assert RenderQueue(init) == [];
          assert KeepingOutlets(v) == [];
        }
      } else {
        assert WithViews(candidates) == v;
      }
    }
  }

  /** Pushing a route with a view onto the reference queue of `v`: the old tail is popped exactly
      when it set `outlet: false`. */
  lemma PushOntoReference(v: seq<RouteInstance>, x: RouteInstance)
    requires v != [] && HasView(x)
    ensures QueueStep(KeepingOutlets(v[..|v| - 1]) + [v[|v| - 1]], x) == KeepingOutlets(v) + [x]
  {
    var init, last := v[..|v| - 1], v[|v| - 1];
    var q := KeepingOutlets(init) + [last];
    assert q[|q| - 1] == last;
    assert q[..|q| - 1] == KeepingOutlets(init);
    if OutletOff(last) {
      assert KeepingOutlets(v) == KeepingOutlets(init);
      assert QueueStep(q, x) == KeepingOutlets(init) + [x];
    } else {
      assert KeepingOutlets(v) == q;
      assert QueueStep(q, x) == q + [x];
    }
  }

  /** The target is always rendered: when the last route of a chain has a view class, it ends the
      render queue, whether or not anything was activated. */
  lemma TargetEndsQueue(mnRoutes: seq<RouteInstance>, changingIndex: nat)
    requires changingIndex <= |mnRoutes|
    requires |mnRoutes| > 0 && HasView(mnRoutes[|mnRoutes| - 1])
    ensures var q := RenderQueue(RenderCandidates(mnRoutes, mnRoutes[changingIndex..]));
            |q| > 0 && q[|q| - 1] == mnRoutes[|mnRoutes| - 1]
  {
    var c := RenderCandidates(mnRoutes, mnRoutes[changingIndex..]);
    RenderQueueIsReference(c);
    assert c[|c| - 1] == mnRoutes[|mnRoutes| - 1];
    assert c == c[..|c| - 1] + [c[|c| - 1]];
  }

  // ---------------------------------------------------------------- regions

  /** Where a view can be shown: the router's root region, or the `outlet` region of a view. */
  datatype Region = RootRegion | OutletOf(view: nat)

  /** A view built for a route: its identity and its class. */
  datatype View = View(serial: nat, cls: ViewClass)

  /** Outcome of region resolution: a region, no region (the router has no root region), or an error. */
  datatype RegionResult = InRegion(region: Region) | NoRegion | RegionError(error: Error)

  /** An ancestor decides the region when it has a live view and does not set `outlet: false`. */
  predicate Qualifies(p: RouteInstance, views: map<RouteId, View>)
  {
    p.id in views && !OutletOff(p)
  }

  /** Scan `routes[k-1]` down to `routes[0]` for the first qualifying ancestor. */
  function ScanRegion(routes: seq<RouteInstance>, k: nat, views: map<RouteId, View>, hasRoot: bool): RegionResult
    requires k <= |routes|
  {
    if k == 0 then (if hasRoot then InRegion(RootRegion) else NoRegion)
    else
      var p := routes[k - 1];
      if Qualifies(p, views) then RegionFrom(p, views)
      else ScanRegion(routes, k - 1, views, hasRoot)
  }

  /** How many positions precede `route` in `routes` (none when it is absent). */
  function AncestorCount(routes: seq<RouteInstance>, route: RouteInstance): (k: nat)
    ensures k <= |routes|
  {
    var i := IndexOf(routes, route);
    if i < 0 then 0 else i
  }

  /** `getParentRegion`: the region the view of `route` is shown in. */
  function ParentRegion(routes: seq<RouteInstance>, route: RouteInstance, views: map<RouteId, View>, hasRoot: bool): RegionResult
  {
    ScanRegion(routes, AncestorCount(routes, route), views, hasRoot)
  }

  /** The scan looks at strictly earlier positions, nearest first. The first qualifying ancestor
      determines the result (its outlet region, or an error naming it when its view has no
      outlet); when none qualifies the result is the root region, or none without one. */
  lemma {:induction false} ScanRegionNearest(routes: seq<RouteInstance>, k: nat, views: map<RouteId, View>, hasRoot: bool)
    requires k <= |routes|
    ensures var r := ScanRegion(routes, k, views, hasRoot);
            && ((forall j :: 0 <= j < k ==> !Qualifies(routes[j], views)) ==>
                  r == (if hasRoot then InRegion(RootRegion) else NoRegion))
            && (forall j :: 0 <= j < k && Qualifies(routes[j], views) && (forall j' :: j < j' < k ==> !Qualifies(routes[j'], views)) ==>
                  r == RegionFrom(routes[j], views))
  {
    if forall j :: 0 <= j < k ==> !Qualifies(routes[j], views) {
      ScanFindsNone(routes, k, views, hasRoot);
    }
    forall j | 0 <= j < k && Qualifies(routes[j], views) && (forall j' :: j < j' < k ==> !Qualifies(routes[j'], views))
      ensures ScanRegion(routes, k, views, hasRoot) == RegionFrom(routes[j], views)
    {
      ScanFindsNearest(routes, k, j, views, hasRoot);
    }
  }

  /** The region a qualifying ancestor provides: its view's outlet, or an error naming it. */
  function RegionFrom(p: RouteInstance, views: map<RouteId, View>): RegionResult
    requires p.id in views
  {
    if views[p.id].cls.hasOutlet then InRegion(OutletOf(views[p.id].serial)) else RegionError(NoOutletRegionIn(p.config.name))
  }

  lemma {:induction false} ScanFindsNone(routes: seq<RouteInstance>, k: nat, views: map<RouteId, View>, hasRoot: bool)
    requires k <= |routes|
    requires forall j :: 0 <= j < k ==> !Qualifies(routes[j], views)
    ensures ScanRegion(routes, k, views, hasRoot) == (if hasRoot then InRegion(RootRegion) else NoRegion)
  {
    if k > 0 {
      ScanFindsNone(routes, k - 1, views, hasRoot);
    }
  }

  lemma {:induction false} ScanFindsNearest(routes: seq<RouteInstance>, k: nat, j: nat, views: map<RouteId, View>, hasRoot: bool)
    requires j < k <= |routes|
    requires Qualifies(routes[j], views) && forall j' :: j < j' < k ==> !Qualifies(routes[j'], views)
    ensures ScanRegion(routes, k, views, hasRoot) == RegionFrom(routes[j], views)
  {
    if j < k - 1 {
      assert !Qualifies(routes[k - 1], views);
      ScanFindsNearest(routes, k - 1, j, views, hasRoot);
    }
  }

  /** A route's own view and the views of later routes never decide where it is shown. */
  lemma {:induction false} ParentRegionIgnoresLaterViews(routes: seq<RouteInstance>, k: nat,
                                                         views: map<RouteId, View>, views': map<RouteId, View>, hasRoot: bool)
    requires k <= |routes|
    requires forall j :: 0 <= j < k ==> (routes[j].id in views <==> routes[j].id in views')
    requires forall j :: 0 <= j < k && routes[j].id in views ==> views[routes[j].id] == views'[routes[j].id]
    ensures ScanRegion(routes, k, views, hasRoot) == ScanRegion(routes, k, views', hasRoot)
  {
    if k > 0 {
      ParentRegionIgnoresLaterViews(routes, k - 1, views, views', hasRoot);
    }
  }

  // ---------------------------------------------------------------- rendering one route

  /** The outcome of rendering one route: its view is kept, replaced by a new one, or the render fails. */
  datatype ViewOutcome = Kept | Built(view: View) | RenderFailed(error: Error)

  /** The view class a route renders with (the framework's plain view when it declares none). */
  function ViewClassOf(r: RouteInstance): ViewClass
  {
    if r.viewClass.Some? then r.viewClass.value else DefaultView
  }

  /** `renderView`: an existing view that accepts the update is kept; otherwise a new view is
      built and shown in the region, or — without a region — accepted only when already rendered. */
  function RenderOne(r: RouteInstance, region: Option<Region>, views: map<RouteId, View>, serial: nat): (o: ViewOutcome)
    ensures o.Kept? <==> r.id in views && r.cls.updatesView
    ensures o.RenderFailed? <==> !(r.id in views && r.cls.updatesView) && region.None? && !ViewClassOf(r).prerendered
    ensures o.RenderFailed? ==> o.error == NoRootOutletRegion
    ensures o.Built? ==> o.view == View(serial, ViewClassOf(r))
  {
    if r.id in views && r.cls.updatesView then Kept
    else if region.None? && !ViewClassOf(r).prerendered then RenderFailed(NoRootOutletRegion)
    else Built(View(serial, ViewClassOf(r)))
  }

  /** The state rendering works on: the routes' views, the next view identity and the events. */
  datatype RenderState = RenderState(views: map<RouteId, View>, nextView: nat, events: seq<Event>)

  /** The region a result stands for (`undefined` when there is none). */
  function RegionOf(r: RegionResult): Option<Region>
  {
    if r.InRegion? then Some(r.region) else None
  }

  /** Render `queue[i..]` in order, stopping at the first error. */
  function RenderFrom(mnRoutes: seq<RouteInstance>, queue: seq<RouteInstance>, i: nat, st: RenderState, hasRoot: bool): (RenderState, Option<Error>)
    requires i <= |queue|
    decreases |queue| - i
  {
    if i == |queue| then (st, None)
    else
      var r := queue[i];
      var region := ParentRegion(mnRoutes, r, st.views, hasRoot);
      if region.RegionError? then (st, Some(region.error))
      else
        match RenderOne(r, RegionOf(region), st.views, st.nextView)
        case Kept => RenderFrom(mnRoutes, queue, i + 1, st, hasRoot)
        case RenderFailed(e) => (st, Some(e))
        case Built(v) =>
          RenderFrom(mnRoutes, queue, i + 1, RenderState(st.views[r.id := v], st.nextView + 1, st.events + [RouteRender(r.id)]), hasRoot)
  }

  /** The routes named by `route:render` events, in order. */
  function Rendered(events: seq<Event>): seq<RouteId>
  {
    if events == [] then []
    else (if events[0].RouteRender? then [events[0].route] else []) + Rendered(events[1..])
  }

  lemma {:induction false} RenderedAppend(a: seq<Event>, b: seq<Event>)
    ensures Rendered(a + b) == Rendered(a) + Rendered(b)
    decreases |a|
  {
    if a == [] {
      assert a + b == b;
    } else {
      assert (a + b)[0] == a[0];
      assert (a + b)[1..] == a[1..] + b;
      RenderedAppend(a[1..], b);
    }
  }

  /** Rendering only appends `route:render` events, one per route whose view was built, in
      queue order; a route whose view is kept emits nothing; when rendering completes, every
      queued route has a view. */
  lemma {:induction false} RenderFromRendersInQueueOrder(mnRoutes: seq<RouteInstance>, queue: seq<RouteInstance>, i: nat,
                                      st: RenderState, hasRoot: bool)
    requires i <= |queue|
    ensures var (st', err) := RenderFrom(mnRoutes, queue, i, st, hasRoot);
            && |st'.events| >= |st.events| && st'.events[..|st.events|] == st.events
            && IsSubsequence(Rendered(st'.events[|st.events|..]), Ids(queue[i..]))
            && (forall e :: e in st'.events[|st.events|..] ==> e.RouteRender?)
            && st.views.Keys <= st'.views.Keys
            && (err.None? ==> forall k :: i <= k < |queue| ==> queue[k].id in st'.views)
  {
    RenderEventsFollowQueue(mnRoutes, queue, i, st, hasRoot);
    RenderAppendsOnlyRenders(mnRoutes, queue, i, st, hasRoot);
    RenderGivesViews(mnRoutes, queue, i, st, hasRoot);
  }

  /** Rendering appends nothing but `route:render` events. */
  lemma {:induction false} RenderAppendsOnlyRenders(mnRoutes: seq<RouteInstance>, queue: seq<RouteInstance>, i: nat,
                                                    st: RenderState, hasRoot: bool)
    requires i <= |queue|
    ensures var st' := RenderFrom(mnRoutes, queue, i, st, hasRoot).0;
            |st'.events| >= |st.events| && forall e :: e in st'.events[|st.events|..] ==> e.RouteRender?
    decreases |queue| - i
  {
    if i < |queue| {
      var r := queue[i];
      var region := ParentRegion(mnRoutes, r, st.views, hasRoot);
      if !region.RegionError? {
        match RenderOne(r, RegionOf(region), st.views, st.nextView)
        case Kept =>
          RenderAppendsOnlyRenders(mnRoutes, queue, i + 1, st, hasRoot);
        case RenderFailed(e) =>
        case Built(v) =>
          var mid := RenderState(st.views[r.id := v], st.nextView + 1, st.events + [RouteRender(r.id)]);
          RenderAppendsOnlyRenders(mnRoutes, queue, i + 1, mid, hasRoot);
          RenderEventsFollowQueue(mnRoutes, queue, i + 1, mid, hasRoot);
          var st' := RenderFrom(mnRoutes, queue, i + 1, mid, hasRoot).0;
          assert st'.events[|st.events|..] == [RouteRender(r.id)] + st'.events[|mid.events|..];
      }
    }
  }

  lemma {:induction false} RenderEventsFollowQueue(mnRoutes: seq<RouteInstance>, queue: seq<RouteInstance>, i: nat,
                                                   st: RenderState, hasRoot: bool)
    requires i <= |queue|
    ensures var (st', err) := RenderFrom(mnRoutes, queue, i, st, hasRoot);
            && |st'.events| >= |st.events| && st'.events[..|st.events|] == st.events
            && IsSubsequence(Rendered(st'.events[|st.events|..]), Ids(queue[i..]))
    decreases |queue| - i
  {
    var (st', err) := RenderFrom(mnRoutes, queue, i, st, hasRoot);
    EmptyIsSubsequence(Ids(queue[i..]));
    if i < |queue| {
      var r := queue[i];
      var region := ParentRegion(mnRoutes, r, st.views, hasRoot);
      IdsFrom(queue, i);
      if !region.RegionError? {
        match RenderOne(r, RegionOf(region), st.views, st.nextView)
        case Kept =>
          RenderEventsFollowQueue(mnRoutes, queue, i + 1, st, hasRoot);
          SubsequenceSkip(Rendered(st'.events[|st.events|..]), r.id, Ids(queue[i + 1..]));
        case RenderFailed(e) =>
        case Built(v) =>
          var mid := RenderState(st.views[r.id := v], st.nextView + 1, st.events + [RouteRender(r.id)]);
          RenderEventsFollowQueue(mnRoutes, queue, i + 1, mid, hasRoot);
          RenderedAfterOne(st.events, r.id, st'.events);
          SubsequenceTake(Rendered(st'.events[|mid.events|..]), r.id, Ids(queue[i + 1..]));
      }
    }
  }

  lemma IdsFrom(queue: seq<RouteInstance>, i: nat)
    requires i < |queue|
    ensures Ids(queue[i..]) == [queue[i].id] + Ids(queue[i + 1..])
  {
    assert queue[i..][1..] == queue[i + 1..];
  }

  lemma SubsequenceSkip(sub: seq<RouteId>, x: RouteId, s: seq<RouteId>)
    requires IsSubsequence(sub, s)
    ensures IsSubsequence(sub, [x] + s)
  {
    assert ([x] + s)[1..] == s;
  }

  lemma SubsequenceTake(sub: seq<RouteId>, x: RouteId, s: seq<RouteId>)
    requires IsSubsequence(sub, s)
    ensures IsSubsequence([x] + sub, [x] + s)
  {
    assert ([x] + s)[1..] == s;
    assert ([x] + sub)[1..] == sub;
  }

  /** Events that extend `before + [route:render]` add that route, then what follows it. */
  lemma RenderedAfterOne(before: seq<Event>, id: RouteId, after: seq<Event>)
    requires |after| >= |before| + 1 && after[..|before| + 1] == before + [RouteRender(id)]
    ensures |after| >= |before| && after[..|before|] == before
    ensures Rendered(after[|before|..]) == [id] + Rendered(after[|before| + 1..])
  {
    assert after[..|before|] == after[..|before| + 1][..|before|];
    assert after[|before|..] == [RouteRender(id)] + after[|before| + 1..];
    RenderedAppend([RouteRender(id)], after[|before| + 1..]);
    assert Rendered([RouteRender(id)]) == [id];
  }

  lemma {:induction false} RenderGivesViews(mnRoutes: seq<RouteInstance>, queue: seq<RouteInstance>, i: nat,
                                            st: RenderState, hasRoot: bool)
    requires i <= |queue|
    ensures var (st', err) := RenderFrom(mnRoutes, queue, i, st, hasRoot);
            && st.views.Keys <= st'.views.Keys
            && (err.None? ==> forall k :: i <= k < |queue| ==> queue[k].id in st'.views)
    decreases |queue| - i
  {
    if i < |queue| {
      var r := queue[i];
      var region := ParentRegion(mnRoutes, r, st.views, hasRoot);
      if !region.RegionError? {
        match RenderOne(r, RegionOf(region), st.views, st.nextView)
        case Kept =>
          RenderGivesViews(mnRoutes, queue, i + 1, st, hasRoot);
        case RenderFailed(e) =>
        case Built(v) =>
          var mid := RenderState(st.views[r.id := v], st.nextView + 1, st.events + [RouteRender(r.id)]);
          RenderGivesViews(mnRoutes, queue, i + 1, mid, hasRoot);
      }
    }
  }

  /** `sub` is `s` with some elements left out, order kept. */
  ghost predicate IsSubsequence(sub: seq<RouteId>, s: seq<RouteId>)
    decreases |s|
  {
    if s == [] then sub == []
    else (sub != [] && sub[0] == s[0] && IsSubsequence(sub[1..], s[1..])) || IsSubsequence(sub, s[1..])
  }

  lemma {:induction false} EmptyIsSubsequence(s: seq<RouteId>)
    ensures IsSubsequence([], s)
    decreases |s|
  {
    if s != [] {
      EmptyIsSubsequence(s[1..]);
    }
  }

  // ---------------------------------------------------------------- rendering twice

  /** No view identity occurs twice in the chain. */
  predicate DistinctIds(routes: seq<RouteInstance>)
  {
    forall i, j :: 0 <= i < j < |routes| ==> routes[i].id != routes[j].id
  }

  /** Every queued route is in the chain, and the queue follows chain order. */
  predicate InChainOrder(queue: seq<RouteInstance>, routes: seq<RouteInstance>)
  {
    && (forall a :: 0 <= a < |queue| ==> queue[a] in routes)
    && (forall a, b :: 0 <= a < b < |queue| ==> IndexOf(routes, queue[a]) < IndexOf(routes, queue[b]))
  }

  /** The identities of `queue[i..]`. */
  ghost function QueueIds(queue: seq<RouteInstance>, i: nat): set<RouteId>
    requires i <= |queue|
  {
    set j | i <= j < |queue| :: queue[j].id
  }

  /** A region result with the identity of the outlet's view forgotten. */
  function Shape(r: RegionResult): RegionResult
  {
    if r.InRegion? && r.region.OutletOf? then InRegion(OutletOf(0)) else r
  }

  /** `routes[..k]` have views in `v1` exactly when they do in `v2`, of the same classes. */
  ghost predicate SameShapeBelow(routes: seq<RouteInstance>, k: nat, v1: map<RouteId, View>, v2: map<RouteId, View>)
    requires k <= |routes|
  {
    forall j :: 0 <= j < k ==>
      && (routes[j].id in v1 <==> routes[j].id in v2)
      && (routes[j].id in v1 ==> v1[routes[j].id].cls == v2[routes[j].id].cls)
  }

  /** Whether a region is found, and any error, depend only on which ancestors have views and of
      which classes. */
  lemma {:induction false} ScanRegionShape(routes: seq<RouteInstance>, k: nat, v1: map<RouteId, View>, v2: map<RouteId, View>, hasRoot: bool)
    requires k <= |routes| && SameShapeBelow(routes, k, v1, v2)
    ensures Shape(ScanRegion(routes, k, v1, hasRoot)) == Shape(ScanRegion(routes, k, v2, hasRoot))
  {
    if k > 0 {
      ScanRegionShape(routes, k - 1, v1, v2, hasRoot);
    }
  }

  /** Rendering `queue[i..]` leaves the views of every other route as they were. */
  lemma {:induction false} RenderFromFrame(mnRoutes: seq<RouteInstance>, queue: seq<RouteInstance>, i: nat,
                                           st: RenderState, hasRoot: bool)
    requires i <= |queue|
    ensures var views' := RenderFrom(mnRoutes, queue, i, st, hasRoot).0.views;
            forall id :: id !in QueueIds(queue, i) ==>
              (id in st.views <==> id in views') && (id in st.views ==> st.views[id] == views'[id])
    decreases |queue| - i
  {
    if i < |queue| {
      var r := queue[i];
      assert QueueIds(queue, i) == {r.id} + QueueIds(queue, i + 1);
      var region := ParentRegion(mnRoutes, r, st.views, hasRoot);
      if !region.RegionError? {
        match RenderOne(r, RegionOf(region), st.views, st.nextView)
        case Kept =>
          RenderFromFrame(mnRoutes, queue, i + 1, st, hasRoot);
        case RenderFailed(e) =>
        case Built(v) =>
          RenderFromFrame(mnRoutes, queue, i + 1, RenderState(st.views[r.id := v], st.nextView + 1, st.events + [RouteRender(r.id)]), hasRoot);
      }
    }
  }

  /** Queued routes have distinct identities. */
  lemma QueueIdsDistinct(queue: seq<RouteInstance>, routes: seq<RouteInstance>, a: nat, b: nat)
    requires DistinctIds(routes) && InChainOrder(queue, routes)
    requires a < b < |queue|
    ensures queue[a].id != queue[b].id
  {
    var pa, pb := IndexOf(routes, queue[a]), IndexOf(routes, queue[b]);
    assert routes[pa] == queue[a] && routes[pb] == queue[b];
  }

  /** No ancestor of a queued route is queued at or after it. */
  lemma AncestorsNotQueued(queue: seq<RouteInstance>, routes: seq<RouteInstance>, i: nat)
    requires DistinctIds(routes) && InChainOrder(queue, routes)
    requires i < |queue|
    ensures forall j :: 0 <= j < AncestorCount(routes, queue[i]) ==> routes[j].id !in QueueIds(queue, i)
  {
    forall j, b | 0 <= j < AncestorCount(routes, queue[i]) && i <= b < |queue|
      ensures routes[j].id != queue[b].id
    {
      var pb := IndexOf(routes, queue[b]);
      assert routes[pb] == queue[b];
    }
  }

  /** How the first pass at step `i` (from `a`, finishing with views `last`) and a second pass
      at step `i` (from `b`) relate: outside the rest of the queue the views have the same
      classes, and the rest of the queue has in `b` exactly the views the first pass ends with. */
  ghost predicate PassesAgree(queue: seq<RouteInstance>, i: nat, a: map<RouteId, View>, b: map<RouteId, View>, last: map<RouteId, View>)
    requires i <= |queue|
  {
    && (forall id :: id !in QueueIds(queue, i) ==> (id in a <==> id in b) && (id in a ==> a[id].cls == b[id].cls))
    && (forall j :: i <= j < |queue| ==>
          && (queue[j].id in b <==> queue[j].id in last)
          && (queue[j].id in b ==> b[queue[j].id] == last[queue[j].id]))
  }

  /** A second pass started from what a failed first pass left behind stops at the same route
      with the same error: the views the first pass built do not change where any failing route
      is shown, nor whether a route that failed can now be skipped. */
  lemma {:induction false} SecondPassFailsAlike(mnRoutes: seq<RouteInstance>, queue: seq<RouteInstance>, i: nat,
                                                a: RenderState, b: RenderState, hasRoot: bool)
    requires i <= |queue|
    requires DistinctIds(mnRoutes) && InChainOrder(queue, mnRoutes)
    requires RenderFrom(mnRoutes, queue, i, a, hasRoot).1.Some?
    requires PassesAgree(queue, i, a.views, b.views, RenderFrom(mnRoutes, queue, i, a, hasRoot).0.views)
    ensures RenderFrom(mnRoutes, queue, i, b, hasRoot).1 == RenderFrom(mnRoutes, queue, i, a, hasRoot).1
    decreases |queue| - i
  {
    var r := queue[i];
    var ra := ParentRegion(mnRoutes, r, a.views, hasRoot);
    if ra.RegionError? {
      FirstStepAlike(mnRoutes, queue, i, a, b, hasRoot);
    } else {
      match RenderOne(r, RegionOf(ra), a.views, a.nextView)
      case RenderFailed(e) =>
        FirstStepAlike(mnRoutes, queue, i, a, b, hasRoot);
      case Kept =>
        var a', b' := StepAlike(mnRoutes, queue, i, a, b, hasRoot);
        SecondPassFailsAlike(mnRoutes, queue, i + 1, a', b', hasRoot);
      case Built(v) =>
        var a', b' := StepAlike(mnRoutes, queue, i, a, b, hasRoot);
        SecondPassFailsAlike(mnRoutes, queue, i + 1, a', b', hasRoot);
    }
  }

  /** Both passes see the same region shape for `queue[i]`. */
  lemma RegionsAlike(mnRoutes: seq<RouteInstance>, queue: seq<RouteInstance>, i: nat,
                     a: map<RouteId, View>, b: map<RouteId, View>, last: map<RouteId, View>, hasRoot: bool)
    requires i < |queue|
    requires DistinctIds(mnRoutes) && InChainOrder(queue, mnRoutes)
    requires PassesAgree(queue, i, a, b, last)
    ensures Shape(ParentRegion(mnRoutes, queue[i], a, hasRoot)) == Shape(ParentRegion(mnRoutes, queue[i], b, hasRoot))
  {
    AncestorsNotQueued(queue, mnRoutes, i);
    ScanRegionShape(mnRoutes, AncestorCount(mnRoutes, queue[i]), a, b, hasRoot);
  }

  /** When the first pass fails at `queue[i]` itself, so does the second, with the same error. */
  lemma FirstStepAlike(mnRoutes: seq<RouteInstance>, queue: seq<RouteInstance>, i: nat,
                       a: RenderState, b: RenderState, hasRoot: bool)
    requires i < |queue|
    requires DistinctIds(mnRoutes) && InChainOrder(queue, mnRoutes)
    requires var ra := ParentRegion(mnRoutes, queue[i], a.views, hasRoot);
             ra.RegionError? || RenderOne(queue[i], RegionOf(ra), a.views, a.nextView).RenderFailed?
    requires PassesAgree(queue, i, a.views, b.views, RenderFrom(mnRoutes, queue, i, a, hasRoot).0.views)
    ensures RenderFrom(mnRoutes, queue, i, b, hasRoot).1 == RenderFrom(mnRoutes, queue, i, a, hasRoot).1
  {
    RegionsAlike(mnRoutes, queue, i, a.views, b.views, RenderFrom(mnRoutes, queue, i, a, hasRoot).0.views, hasRoot);
  }

  /** When the first pass gets past `queue[i]`, so does the second, and the passes still agree
      on the rest of the queue. */
  lemma StepAlike(mnRoutes: seq<RouteInstance>, queue: seq<RouteInstance>, i: nat,
                  a: RenderState, b: RenderState, hasRoot: bool)
      returns (a': RenderState, b': RenderState)
    requires i < |queue|
    requires DistinctIds(mnRoutes) && InChainOrder(queue, mnRoutes)
    requires var ra := ParentRegion(mnRoutes, queue[i], a.views, hasRoot);
             !ra.RegionError? && !RenderOne(queue[i], RegionOf(ra), a.views, a.nextView).RenderFailed?
    requires PassesAgree(queue, i, a.views, b.views, RenderFrom(mnRoutes, queue, i, a, hasRoot).0.views)
    ensures RenderFrom(mnRoutes, queue, i, a, hasRoot) == RenderFrom(mnRoutes, queue, i + 1, a', hasRoot)
    ensures RenderFrom(mnRoutes, queue, i, b, hasRoot) == RenderFrom(mnRoutes, queue, i + 1, b', hasRoot)
    ensures PassesAgree(queue, i + 1, a'.views, b'.views, RenderFrom(mnRoutes, queue, i + 1, a', hasRoot).0.views)
  {
    var r := queue[i];
    var last := RenderFrom(mnRoutes, queue, i, a, hasRoot).0.views;
    RegionsAlike(mnRoutes, queue, i, a.views, b.views, last, hasRoot);
    NotQueuedLater(queue, mnRoutes, i);
    a' := FirstPassStep(mnRoutes, queue, i, a, hasRoot);
    RenderFromFrame(mnRoutes, queue, i + 1, a', hasRoot);
    assert r.id in b.views && b.views[r.id] == a'.views[r.id];
    b' := SecondPassStep(mnRoutes, queue, i, b, hasRoot);
    AgreeStep(queue, i, a.views, b.views, last, a'.views, b'.views);
  }

  /** One step of the first pass past `queue[i]`: its view is kept or built. */
  lemma FirstPassStep(mnRoutes: seq<RouteInstance>, queue: seq<RouteInstance>, i: nat, a: RenderState, hasRoot: bool)
      returns (a': RenderState)
    requires i < |queue|
    requires var ra := ParentRegion(mnRoutes, queue[i], a.views, hasRoot);
             !ra.RegionError? && !RenderOne(queue[i], RegionOf(ra), a.views, a.nextView).RenderFailed?
    ensures RenderFrom(mnRoutes, queue, i, a, hasRoot) == RenderFrom(mnRoutes, queue, i + 1, a', hasRoot)
    ensures queue[i].id in a'.views && a'.views == a.views[queue[i].id := a'.views[queue[i].id]]
    ensures !queue[i].cls.updatesView ==> a'.views[queue[i].id].cls == ViewClassOf(queue[i])
  {
    var r := queue[i];
    if r.id in a.views && r.cls.updatesView {
      a' := a;
      assert a.views[r.id := a.views[r.id]] == a.views;
    } else {
      a' := RenderState(a.views[r.id := View(a.nextView, ViewClassOf(r))], a.nextView + 1, a.events + [RouteRender(r.id)]);
    }
  }

  /** The identity of a queued route does not recur later in the queue. */
  lemma NotQueuedLater(queue: seq<RouteInstance>, routes: seq<RouteInstance>, i: nat)
    requires DistinctIds(routes) && InChainOrder(queue, routes)
    requires i < |queue|
    ensures queue[i].id !in QueueIds(queue, i + 1)
  {
    forall b | i + 1 <= b < |queue| ensures queue[b].id != queue[i].id {
      QueueIdsDistinct(queue, routes, i, b);
    }
  }

  /** One step of the second pass at a route that already has a view, in a region when it
      must be rebuilt: the view is kept or rebuilt, and rendering goes on with the next route. */
  lemma SecondPassStep(mnRoutes: seq<RouteInstance>, queue: seq<RouteInstance>, i: nat, b: RenderState, hasRoot: bool)
      returns (b': RenderState)
    requires i < |queue| && queue[i].id in b.views
    requires var rb := ParentRegion(mnRoutes, queue[i], b.views, hasRoot);
             !rb.RegionError? && (queue[i].cls.updatesView || RegionOf(rb).Some? || ViewClassOf(queue[i]).prerendered)
    ensures RenderFrom(mnRoutes, queue, i, b, hasRoot) == RenderFrom(mnRoutes, queue, i + 1, b', hasRoot)
    ensures queue[i].id in b'.views && b'.views == b.views[queue[i].id := b'.views[queue[i].id]]
    ensures queue[i].cls.updatesView ==> b'.views == b.views
    ensures !queue[i].cls.updatesView ==> b'.views[queue[i].id].cls == ViewClassOf(queue[i])
  {
    var r := queue[i];
    var rb := ParentRegion(mnRoutes, r, b.views, hasRoot);
    if r.cls.updatesView {
      b' := b;
      assert b.views[r.id := b.views[r.id]] == b.views;
    } else {
      b' := RenderState(b.views[r.id := View(b.nextView, ViewClassOf(r))], b.nextView + 1, b.events + [RouteRender(r.id)]);
    }
  }

  /** After a step that sets the view of `queue[i]` in both passes to views of the same class,
      the passes agree on the rest of the queue. */
  lemma AgreeStep(queue: seq<RouteInstance>, i: nat, a: map<RouteId, View>, b: map<RouteId, View>, last: map<RouteId, View>,
                  a': map<RouteId, View>, b': map<RouteId, View>)
    requires i < |queue| && queue[i].id !in QueueIds(queue, i + 1)
    requires PassesAgree(queue, i, a, b, last)
    requires queue[i].id in a' && a' == a[queue[i].id := a'[queue[i].id]]
    requires queue[i].id in b' && b' == b[queue[i].id := b'[queue[i].id]]
    requires a'[queue[i].id].cls == b'[queue[i].id].cls
    ensures PassesAgree(queue, i + 1, a', b', last)
  {
    assert QueueIds(queue, i) == {queue[i].id} + QueueIds(queue, i + 1);
    forall j | i + 1 <= j < |queue| ensures queue[j].id != queue[i].id {
      assert queue[j].id in QueueIds(queue, i + 1);
    }
  }

  /** Rendering the queue a second time, from the state a failed first pass left, fails with
      the same error. */
  lemma RenderTwiceFailsAlike(mnRoutes: seq<RouteInstance>, queue: seq<RouteInstance>, st: RenderState, hasRoot: bool)
    requires DistinctIds(mnRoutes) && InChainOrder(queue, mnRoutes)
    ensures var first := RenderFrom(mnRoutes, queue, 0, st, hasRoot);
            first.1.Some? ==> RenderFrom(mnRoutes, queue, 0, first.0, hasRoot).1 == first.1
  {
    var first := RenderFrom(mnRoutes, queue, 0, st, hasRoot);
    if first.1.Some? {
      RenderFromFrame(mnRoutes, queue, 0, st, hasRoot);
      assert PassesAgree(queue, 0, st.views, first.0.views, first.0.views);
      SecondPassFailsAlike(mnRoutes, queue, 0, st, first.0, hasRoot);
    }
  }

  /** In a chain of distinct identities, `indexOf` finds every route at its own position. */
  lemma IndexOfDistinct(routes: seq<RouteInstance>, j: nat)
    requires DistinctIds(routes) && j < |routes|
    ensures IndexOf(routes, routes[j]) == j
  {
    var p := IndexOf(routes, routes[j]);
    assert routes[p] == routes[j];
  }

  /** The render candidates of a chain of distinct identities, for the activation suffix from
      any index, follow chain order. */
  lemma CandidatesInChainOrder(mnRoutes: seq<RouteInstance>, from: nat)
    requires DistinctIds(mnRoutes) && from <= |mnRoutes|
    ensures InChainOrder(RenderCandidates(mnRoutes, mnRoutes[from..]), mnRoutes)
  {
    var c := RenderCandidates(mnRoutes, mnRoutes[from..]);
    if from < |mnRoutes| {
      forall a | 0 <= a < |c| ensures IndexOf(mnRoutes, c[a]) == from + a {
        IndexOfDistinct(mnRoutes, from + a);
      }
    }
  }

  /** The render queue keeps the order of its candidates and takes nothing else. */
  lemma {:induction false} QueueInChainOrder(candidates: seq<RouteInstance>, mnRoutes: seq<RouteInstance>)
    requires InChainOrder(candidates, mnRoutes)
    ensures InChainOrder(RenderQueue(candidates), mnRoutes)
    ensures forall x :: x in RenderQueue(candidates) ==> x in candidates
    decreases |candidates|
  {
    if candidates != [] {
      var n := |candidates| - 1;
      var init, last := candidates[..n], candidates[n];
      assert forall a :: 0 <= a < n ==> init[a] == candidates[a];
      QueueInChainOrder(init, mnRoutes);
      var memo := RenderQueue(init);
      if HasView(last) {
        var kept := if |memo| > 0 && OutletOff(memo[|memo| - 1]) then memo[..|memo| - 1] else memo;
        assert forall x :: x in kept ==> x in memo;
        forall x | x in kept ensures IndexOf(mnRoutes, x) < IndexOf(mnRoutes, last) {
          var a :| 0 <= a < n && init[a] == x;
        }
        AppendInChainOrder(kept, last, mnRoutes);
      }
    }
  }

  lemma AppendInChainOrder(queue: seq<RouteInstance>, x: RouteInstance, mnRoutes: seq<RouteInstance>)
    requires InChainOrder(queue, mnRoutes) && x in mnRoutes
    requires forall y :: y in queue ==> IndexOf(mnRoutes, y) < IndexOf(mnRoutes, x)
    ensures InChainOrder(queue + [x], mnRoutes)
  {
    var q := queue + [x];
    forall a, b | 0 <= a < b < |q| ensures IndexOf(mnRoutes, q[a]) < IndexOf(mnRoutes, q[b]) {
      assert q[a] == queue[a];
    }
  }
}
