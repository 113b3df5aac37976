/**
 * Sequential execution of lifecycle hooks (`runAsyncMethod`) and of the `load` chain.
 * Deferred values are modelled as steps that run one after the
 * other; a hook's effect on the transition's cancellation flag and whether its deferred value
 * rejects come from the route's class.
 */
module Hooks {
  import opened Wrappers
  import opened Routes

  // ---------------------------------------------------------------- runAsyncMethod

  /** `before:<kind>` for every route of the list, all emitted before any hook runs. */
  function Befores(list: seq<RouteInstance>, kind: HookKind): (evs: seq<Event>)
    ensures |evs| == |list|
    ensures forall k :: 0 <= k < |list| ==> evs[k] == Before(kind, list[k].id)
  {
    if list == [] then [] else [Before(kind, list[0].id)] + Befores(list[1..], kind)
  }

  /** The events a run of hooks produced, the cancellation flag after it, and the rejection that ended it. */
  datatype HookRun = HookRun(events: seq<Event>, cancelled: bool, failure: Option<Error>)

  /** The chained steps: each step does nothing once the transition is cancelled; otherwise it
      calls the hook and, unless the transition was cancelled meanwhile, emits `<kind>`. A
      rejection skips every later step. */
  function HookSteps(list: seq<RouteInstance>, kind: HookKind, cancelled: bool): HookRun
    decreases |list|
  {
    if list == [] || cancelled then HookRun([], cancelled, None)
    else
      var r := list[0];
      var h := HookOf(r, kind);
      if h.rejects then HookRun([Invoked(kind, r.id)], h.cancels, Some(HookRejected(kind, r.config.name)))
      else
        var rest := HookSteps(list[1..], kind, h.cancels);
        HookRun([Invoked(kind, r.id)] + (if h.cancels then [] else [After(kind, r.id)]) + rest.events, rest.cancelled, rest.failure)
  }

  /** `runAsyncMethod`: all `before:` events first, then the chained steps. On a transition
      that is already cancelled no hook is called: only the `before:` events are emitted, and
      the run neither fails nor clears the flag. */
  function RunAsyncMethod(list: seq<RouteInstance>, kind: HookKind, cancelled: bool): (r: HookRun)
    ensures |r.events| >= |list| && r.events[..|list|] == Befores(list, kind)
    ensures cancelled ==> r == HookRun(Befores(list, kind), true, None)
  {
    var s := HookSteps(list, kind, cancelled);
    s.(events := Befores(list, kind) + s.events)
  }

  /** A hook that rejects or cancels ends the run (no `<kind>` event follows it). */
  predicate Stops(r: RouteInstance, kind: HookKind)
  {
    HookOf(r, kind).rejects || HookOf(r, kind).cancels
  }

  /** How many hooks of the list are called: none when already cancelled, else up to and
      including the first one that stops the run. */
  function Executed(list: seq<RouteInstance>, kind: HookKind, cancelled: bool): (n: nat)
    ensures n <= |list|
  {
    if cancelled || list == [] then 0
    else if Stops(list[0], kind) then 1
    else 1 + Executed(list[1..], kind, false)
  }

  /** The events of one completed call: the invocation and, unless the hook stopped the run, `<kind>`. */
  function StepEvents(r: RouteInstance, kind: HookKind): seq<Event>
  {
    [Invoked(kind, r.id)] + (if Stops(r, kind) then [] else [After(kind, r.id)])
  }

  /** The events of calling every hook of the list in order. */
  function AllSteps(list: seq<RouteInstance>, kind: HookKind): seq<Event>
  {
    if list == [] then [] else StepEvents(list[0], kind) + AllSteps(list[1..], kind)
  }

  /** Hooks run strictly in list order: exactly the first `Executed` hooks are called, each
      followed by its `<kind>` event only when it neither rejected nor cancelled; every hook
      before the last one called did neither; the run stops early only on cancellation or
      rejection; and the flag and the failure come from the last hook called. */
  lemma {:induction false} HookStepsInOrder(list: seq<RouteInstance>, kind: HookKind, cancelled: bool)
    ensures var s, n := HookSteps(list, kind, cancelled), Executed(list, kind, cancelled);
            && s.events == AllSteps(list[..n], kind)
            && (forall k :: 0 <= k < n - 1 ==> !Stops(list[k], kind))
            && (n < |list| ==> s.cancelled || s.failure.Some?)
            && s.cancelled == (cancelled || (n > 0 && HookOf(list[n - 1], kind).cancels))
            && s.failure == (if n > 0 && HookOf(list[n - 1], kind).rejects
                             then Some(HookRejected(kind, list[n - 1].config.name)) else None)
  {
    HookStepsEvents(list, kind, cancelled);
    HookStepsEnd(list, kind, cancelled);
  }

  lemma {:induction false} HookStepsEvents(list: seq<RouteInstance>, kind: HookKind, cancelled: bool)
    ensures HookSteps(list, kind, cancelled).events == AllSteps(list[..Executed(list, kind, cancelled)], kind)
    decreases |list|
  {
    if list != [] && !cancelled {
      var h := HookOf(list[0], kind);
      if !h.rejects {
        HookStepsEvents(list[1..], kind, h.cancels);
        var n := Executed(list, kind, cancelled);
        if !h.cancels {
          assert list[..n] == [list[0]] + list[1..][..n - 1];
        } else {
          assert list[..n] == [list[0]];
        }
      } else {
        assert list[..1] == [list[0]];
      }
    }
  }

  lemma {:induction false} HookStepsEnd(list: seq<RouteInstance>, kind: HookKind, cancelled: bool)
    ensures var s, n := HookSteps(list, kind, cancelled), Executed(list, kind, cancelled);
            && (forall k :: 0 <= k < n - 1 ==> !Stops(list[k], kind))
            && (n < |list| ==> s.cancelled || s.failure.Some?)
            && s.cancelled == (cancelled || (n > 0 && HookOf(list[n - 1], kind).cancels))
            && s.failure == (if n > 0 && HookOf(list[n - 1], kind).rejects
                             then Some(HookRejected(kind, list[n - 1].config.name)) else None)
    decreases |list|
  {
    if list != [] && !cancelled {
      var h := HookOf(list[0], kind);
      if !h.rejects && !h.cancels {
        HookStepsEnd(list[1..], kind, false);
        var n := Executed(list, kind, cancelled);
        assert forall k :: 1 <= k < n - 1 ==> list[k] == list[1..][k - 1];
      }
    }
  }

  /** An event belongs to a hook run of the given kind. */
  predicate OfKind(e: Event, kind: HookKind)
  {
    (e.Before? || e.Invoked? || e.After?) && e.kind == kind
  }

  /** A run of one kind of hook produces only that kind's events. */
  lemma {:induction false} RunEventsOfKind(list: seq<RouteInstance>, kind: HookKind, cancelled: bool)
    ensures forall e :: e in RunAsyncMethod(list, kind, cancelled).events ==> OfKind(e, kind)
  {
    BeforesOfKind(list, kind);
    StepsOfKind(list, kind, cancelled);
  }

  lemma {:induction false} BeforesOfKind(list: seq<RouteInstance>, kind: HookKind)
    ensures forall e :: e in Befores(list, kind) ==> OfKind(e, kind)
  {
  }

  lemma {:induction false} StepsOfKind(list: seq<RouteInstance>, kind: HookKind, cancelled: bool)
    ensures forall e :: e in HookSteps(list, kind, cancelled).events ==> OfKind(e, kind)
    decreases |list|
  {
    if list != [] && !cancelled && !HookOf(list[0], kind).rejects {
      StepsOfKind(list[1..], kind, HookOf(list[0], kind).cancels);
    }
  }

  // ---------------------------------------------------------------- the load chain

  /** The instances of a chain whose class defines `load`, in chain order. */
  function Loaders(mnRoutes: seq<RouteInstance>): (ls: seq<RouteInstance>)
    ensures forall l :: l in ls ==> l in mnRoutes && l.cls.load.Some?
    ensures forall r :: r in mnRoutes && r.cls.load.Some? ==> r in ls
  {
    if mnRoutes == [] then []
    else
      var last := mnRoutes[|mnRoutes| - 1];
      Loaders(mnRoutes[..|mnRoutes| - 1]) + (if last.cls.load.Some? then [last] else [])
  }

  /** The positions of the chain whose route defines `load`, in increasing order. */
  function LoaderPositions(mnRoutes: seq<RouteInstance>): seq<nat>
  {
    if mnRoutes == [] then []
    else
      var n := |mnRoutes| - 1;
      LoaderPositions(mnRoutes[..n]) + (if mnRoutes[n].cls.load.Some? then [n] else [])
  }

  /** The loaders are the routes that define `load`, each taken once and in chain order: the
      k-th loader is the route at the k-th loader position, those positions strictly increase,
      and every position whose route defines `load` is one of them. */
  lemma {:induction false} LoadersInChainOrder(mnRoutes: seq<RouteInstance>)
    ensures var ls, ix := Loaders(mnRoutes), LoaderPositions(mnRoutes);
            && |ls| == |ix|
            && (forall k :: 0 <= k < |ix| ==> ix[k] < |mnRoutes| && mnRoutes[ix[k]].cls.load.Some? && ls[k] == mnRoutes[ix[k]])
            && (forall k1, k2 :: 0 <= k1 < k2 < |ix| ==> ix[k1] < ix[k2])
            && (forall j :: 0 <= j < |mnRoutes| && mnRoutes[j].cls.load.Some? ==> j in ix)
  {
    LoadersAtPositions(mnRoutes);
    LoaderPositionsIncrease(mnRoutes);
    LoaderPositionsComplete(mnRoutes);
  }

  lemma {:induction false} LoadersAtPositions(mnRoutes: seq<RouteInstance>)
    ensures var ls, ix := Loaders(mnRoutes), LoaderPositions(mnRoutes);
            && |ls| == |ix|
            && (forall k :: 0 <= k < |ix| ==> ix[k] < |mnRoutes| && mnRoutes[ix[k]].cls.load.Some? && ls[k] == mnRoutes[ix[k]])
    decreases |mnRoutes|
  {
    if mnRoutes != [] {
      var n := |mnRoutes| - 1;
      var init := mnRoutes[..n];
      LoadersAtPositions(init);
      var ls, ix := Loaders(init), LoaderPositions(init);
      assert forall k :: 0 <= k < |ix| ==> init[ix[k]] == mnRoutes[ix[k]];
    }
  }

  lemma {:induction false} LoaderPositionsIncrease(mnRoutes: seq<RouteInstance>)
    ensures var ix := LoaderPositions(mnRoutes);
            forall k1, k2 :: 0 <= k1 < k2 < |ix| ==> ix[k1] < ix[k2]
    decreases |mnRoutes|
  {
    if mnRoutes != [] {
      var n := |mnRoutes| - 1;
      LoaderPositionsIncrease(mnRoutes[..n]);
      LoadersAtPositions(mnRoutes[..n]);
    }
  }

  lemma {:induction false} LoaderPositionsComplete(mnRoutes: seq<RouteInstance>)
    ensures var ix := LoaderPositions(mnRoutes);
            forall j :: 0 <= j < |mnRoutes| && mnRoutes[j].cls.load.Some? ==> j in ix
    decreases |mnRoutes|
  {
    if mnRoutes != [] {
      var n := |mnRoutes| - 1;
      var init := mnRoutes[..n];
      LoaderPositionsComplete(init);
      assert forall j :: 0 <= j < n ==> init[j] == mnRoutes[j];
    }
  }

  /** The invocation events of the hooks of the given instances, in order. */
  function Invocations(kind: HookKind, ids: seq<RouteId>): (evs: seq<Event>)
    ensures |evs| == |ids|
    ensures forall k :: 0 <= k < |ids| ==> evs[k] == Invoked(kind, ids[k])
  {
    seq(|ids|, k requires 0 <= k < |ids| => Invoked(kind, ids[k]))
  }

  /** The calls a load chain made and whether its deferred value rejected. */
  datatype LoadRun = LoadRun(calls: seq<RouteId>, rejected: bool)

  predicate LoadRejects(l: RouteInstance)
  {
    HookOf(l, Load).rejects
  }

  /**
   * The chain as the source builds it: the first load is called directly; each later one is
   * attached as `previous.then(load).catch(load)`. When the previous step resolved and this load
   * rejects, the `catch` calls the same load a second time.
   */
  function LoadChainAsWritten(loaders: seq<RouteInstance>): LoadRun
    decreases |loaders|
  {
    if |loaders| == 0 then LoadRun([], false)
    else if |loaders| == 1 then LoadRun([loaders[0].id], LoadRejects(loaders[0]))
    else
      var p := LoadChainAsWritten(loaders[..|loaders| - 1]);
      var l := loaders[|loaders| - 1];
      if !p.rejected && LoadRejects(l) then LoadRun(p.calls + [l.id, l.id], true)
      else LoadRun(p.calls + [l.id], LoadRejects(l))
  }

  /** A resolving load followed by a rejecting one: the second load is called twice. */
  lemma RejectingLoadCalledTwice(a: RouteInstance, b: RouteInstance)
    requires !LoadRejects(a) && LoadRejects(b)
    ensures LoadChainAsWritten([a, b]).calls == [a.id, b.id, b.id]
  {
    assert [a, b][..1] == [a];
  }

  /** The chain as intended: each load is called once, after the previous one settled,
      whether that one resolved or rejected. */
  function LoadChain(loaders: seq<RouteInstance>): LoadRun
    decreases |loaders|
  {
    if |loaders| == 0 then LoadRun([], false)
    else
      var p := LoadChain(loaders[..|loaders| - 1]);
      var l := loaders[|loaders| - 1];
      LoadRun(p.calls + [l.id], LoadRejects(l))
  }

  /** The intended chain calls every load exactly once, in chain order; a rejection does not
      stop the later loads. */
  lemma {:induction false} LoadChainCallsEachOnce(loaders: seq<RouteInstance>)
    ensures LoadChain(loaders).calls == Ids(loaders)
    decreases |loaders|
  {
    if |loaders| > 0 {
      var init := loaders[..|loaders| - 1];
      LoadChainCallsEachOnce(init);
      assert loaders == init + [loaders[|loaders| - 1]];
      IdsAppend(init, loaders[|loaders| - 1]);
    }
  }

  lemma {:induction false} IdsAppend(rs: seq<RouteInstance>, r: RouteInstance)
    ensures Ids(rs + [r]) == Ids(rs) + [r.id]
  {
  }

  /** Where no load rejects, the source's chain and the intended one are the same. */
  lemma {:induction false} LoadChainsAgreeWithoutRejection(loaders: seq<RouteInstance>)
    requires forall l :: l in loaders ==> !LoadRejects(l)
    ensures LoadChainAsWritten(loaders) == LoadChain(loaders)
    decreases |loaders|
  {
    if |loaders| > 1 {
      LoadChainsAgreeWithoutRejection(loaders[..|loaders| - 1]);
    } else if |loaders| == 1 {
      assert loaders[..0] == [];
    }
  }
}
