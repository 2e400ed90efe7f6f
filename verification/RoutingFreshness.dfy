/** What an invalidation does for routing: once no older answer is in flight, inserts begun later never use a
    centroid set that the server had given up before. */
module RoutingFreshness {
  import opened Wrappers
  import opened Centroids
  import opened Retry
  import opened InsertProtocol
  import opened InsertTheorems
  import C = CacheProtocol

  /** The sets the server had in the course of `later`, from the one it had in `m` on. */
  function SetsSince(m: State, later: seq<Step>): set<CentroidSet> {
    if later == [] then {m.c.current} else SetsSince(m, later[..|later| - 1]) + {After(m, later).c.current}
  }

  predicate Known(cs: CentroidSet, sets: set<CentroidSet>) {
    cs in sets || cs == EMPTY_SET
  }

  /** Everything the cache holds or is about to be offered is one of `sets`. */
  ghost predicate CacheSince(c: C.State, sets: set<CentroidSet>) {
    && c.current in sets
    && (c.cache.Some? ==> Known(c.cache.value.cs, sets))
    && (forall t :: 0 <= t < |c.callers| && c.callers[t].Fetched? ==> Known(c.callers[t].answer.cs, sets))
  }

  /** An insert whose id is not in `prior` routes by one of `sets`. */
  ghost predicate InserterSince(s: State, t: nat, prior: set<Uuid>, sets: set<CentroidSet>)
    requires t < |s.inserters|
  {
    match s.inserters[t]
    case Ready => true
    case NeedSet(id, _) =>
      id !in prior && t < |s.c.callers| && s.c.callers[t].Returned? ==> Known(s.c.callers[t].cs, sets)
    case Sending(req, _) => req.id !in prior ==> RoutedFrom(req, sets)
  }

  ghost predicate RoutedSince(s: State, prior: set<Uuid>, sets: set<CentroidSet>) {
    && CacheSince(s.c, sets)
    && (forall t :: 0 <= t < |s.inserters| ==> InserterSince(s, t, prior, sets))
    && (forall req :: req in s.network && req.id !in prior ==> RoutedFrom(req, sets))
  }

  lemma CacheSinceStep(c: C.State, step: C.Step, sets: set<CentroidSet>, more: set<CentroidSet>)
    requires CacheSince(c, sets) && more == sets + {C.Apply(c, step).current}
    ensures CacheSince(C.Apply(c, step), more)
  {
  }

  /** A caller that returns has taken its set from the cache or from its own answer. */
  lemma ReturnsKnown(c: C.State, step: C.Step, sets: set<CentroidSet>, t: nat)
    requires CacheSince(c, sets) && t < |c.callers| && C.Apply(c, step).callers[t].Returned?
    ensures c.callers[t] == C.Apply(c, step).callers[t] || Known(C.Apply(c, step).callers[t].cs, sets)
  {
  }

  lemma SameCallers(c: C.State, step: C.Step)
    ensures |C.Apply(c, step).callers| == |c.callers|
  {
  }

  lemma CacheStepKeeps(s: State, step: C.Step, t: nat, prior: set<Uuid>, sets: set<CentroidSet>,
                       more: set<CentroidSet>)
    requires t < |s.inserters| && InserterSince(s, t, prior, sets) && CacheSince(s.c, sets) && sets <= more
    ensures InserterSince(Apply(s, Cache(step)), t, prior, more)
  {
    hide CacheSince, C.Apply, RouteItem, WellRouted;
    SameCallers(s.c, step);
    if t < |s.c.callers| && C.Apply(s.c, step).callers[t].Returned? {
      ReturnsKnown(s.c, step, sets, t);
    }
  }

  /** The release of a caller that comes with a routing changes no other caller and returns nothing. */
  lemma ReleaseKeeps(c: C.State, step: Step)
    requires step.Route? || step.Abort?
    ensures |C.Apply(c, C.Release(step.t)).callers| == |c.callers|
    ensures forall t :: 0 <= t < |c.callers| && C.Apply(c, C.Release(step.t)).callers[t].Returned? ==>
      C.Apply(c, C.Release(step.t)).callers[t] == c.callers[t]
  {
  }

  lemma RouteStepKeeps(s: State, step: Step, t: nat, prior: set<Uuid>, sets: set<CentroidSet>, more: set<CentroidSet>)
    requires t < |s.inserters| && InserterSince(s, t, prior, sets) && sets <= more && (step.Route? || step.Abort?)
    ensures InserterSince(Apply(s, step), t, prior, more)
  {
    hide C.Apply;
    ReleaseKeeps(s.c, step);
  }

  lemma OtherStepKeeps(s: State, step: Step, t: nat, prior: set<Uuid>, sets: set<CentroidSet>, more: set<CentroidSet>)
    requires t < |s.inserters| && InserterSince(s, t, prior, sets) && sets <= more
    requires !step.Cache? && !step.Route? && !step.Abort?
    ensures InserterSince(Apply(s, step), t, prior, more)
  {
    hide RouteItem, OnAnswer, C.Apply;
  }

  lemma InserterSinceStep(s: State, step: Step, t: nat, prior: set<Uuid>, sets: set<CentroidSet>,
                          more: set<CentroidSet>)
    requires t < |s.inserters| && RoutedSince(s, prior, sets) && sets <= more
    ensures InserterSince(Apply(s, step), t, prior, more)
  {
    hide CacheSince, Apply;
    assert InserterSince(s, t, prior, sets);
    match step
    case Cache(cstep) => CacheStepKeeps(s, cstep, t, prior, sets, more);
    case Route(_) => RouteStepKeeps(s, step, t, prior, sets, more);
    case Abort(_) => RouteStepKeeps(s, step, t, prior, sets, more);
    case _ => OtherStepKeeps(s, step, t, prior, sets, more);
  }

  lemma InSets(c: C.State, sets: set<CentroidSet>)
    ensures CacheSince(c, sets) ==> c.current in sets
  {
  }

  lemma CacheStays(s: State, step: Step, sets: set<CentroidSet>)
    requires CacheSince(s.c, sets)
    ensures CacheSince(Apply(s, step).c, sets + {Apply(s, step).c.current})
  {
    hide CacheSince, C.Apply, RouteItem;
    var cstep := match step
      case Cache(c) => c
      case Route(t) => C.Release(t)
      case Abort(t) => C.Release(t)
      case _ => C.Invalidate;
    InSets(s.c, sets);
    assert sets + {s.c.current} == sets;
    CacheSinceStep(s.c, cstep, sets, sets + {C.Apply(s.c, cstep).current});
    assert Apply(s, step).c == s.c || Apply(s, step).c == C.Apply(s.c, cstep);
  }

  lemma SentSince(s: State, step: Step, prior: set<Uuid>, sets: set<CentroidSet>)
    requires RoutedSince(s, prior, sets)
    ensures forall req :: req in Apply(s, step).network && req.id !in prior ==>
      RoutedFrom(req, sets + {Apply(s, step).c.current})
  {
    hide CacheSince, RouteItem, OnAnswer, C.Apply;
    if step.Send? && step.t < |s.inserters| {
      assert InserterSince(s, step.t, prior, sets);
    }
  }

  lemma RoutedSinceStep(s: State, step: Step, prior: set<Uuid>, sets: set<CentroidSet>)
    requires RoutedSince(s, prior, sets)
    ensures RoutedSince(Apply(s, step), prior, sets + {Apply(s, step).c.current})
  {
    hide InserterSince, CacheSince, RouteItem, OnAnswer, C.Apply;
    var more := sets + {Apply(s, step).c.current};
    CacheStays(s, step, sets);
    forall t | 0 <= t < |s.inserters|
      ensures InserterSince(Apply(s, step), t, prior, more)
    {
      InserterSinceStep(s, step, t, prior, sets, more);
    }
    SentSince(s, step, prior, sets);
  }

  lemma {:induction false} AlwaysRoutedSince(m: State, later: seq<Step>, prior: set<Uuid>)
    requires RoutedSince(m, prior, {m.c.current})
    ensures RoutedSince(After(m, later), prior, SetsSince(m, later))
  {
    hide Apply, RoutedSince;
    if later != [] {
      AlwaysRoutedSince(m, later[..|later| - 1], prior);
      RoutedSinceStep(After(m, later[..|later| - 1]), later[|later| - 1], prior, SetsSince(m, later[..|later| - 1]));
    }
  }

  /** At an invalidation with no answer in flight, only inserts under way can still route by older sets. */
  lemma RoutedSinceInvalidation(m: State)
    requires OwnIds(m) && m.c.cache == None && !C.AnswerInFlight(m.c)
    ensures RoutedSince(m, m.issued, {m.c.current})
  {
    forall t | 0 <= t < |m.inserters|
      ensures InserterSince(m, t, m.issued, {m.c.current})
    {
      match m.inserters[t]
      case Ready =>
      case NeedSet(id, _) => assert Active(m, t, id);
      case Sending(req, _) => assert Active(m, t, req.id);
    }
  }

  /** When the cache is invalidated and no caller holds an answer it has not committed, every request of an insert
      begun later, in whatever run follows, is routed by a set that the server had at the invalidation or after. */
  lemma RoutedFreshAfterInvalidation(s: State, before: seq<Step>, later: seq<Step>, req: InsertRequest)
    returns (cs: CentroidSet)
    requires Initial(s)
    requires var m := Apply(After(s, before), Cache(C.Invalidate));
      !C.AnswerInFlight(m.c) && req in After(m, later).network && req.id !in m.issued
    ensures var m := Apply(After(s, before), Cache(C.Invalidate));
      cs in SetsSince(m, later) && WellRouted(req, cs)
  {
    hide After, Initial, OwnIds, AllRouted, SameRequest, StoreSound, Counted, FreshIds, SuccessStored;
    InitiallySafe(s);
    AlwaysSafe(s, before, s.store);
    OwnIdsStep(After(s, before), Cache(C.Invalidate));
    var m := Apply(After(s, before), Cache(C.Invalidate));
    RoutedSinceInvalidation(m);
    AlwaysRoutedSince(m, later, m.issued);
    cs :| cs in SetsSince(m, later) && WellRouted(req, cs);
  }
}
