/** What concurrent inserts guarantee in every interleaving: routing coherence, at-most-once storage under
    lost acks, and bounded sending. */
module InsertTheorems {
  import opened Wrappers
  import opened Vectors
  import opened Centroids
  import opened Retry
  import opened InsertProtocol
  import C = CacheProtocol

  // ---- each insert owns its id ----

  ghost predicate Active(s: State, t: nat, id: Uuid) {
    t < |s.inserters| && match s.inserters[t]
      case Ready => false
      case NeedSet(i, _) => i == id
      case Sending(req, _) => req.id == id
  }

  ghost predicate Owned(s: State) {
    && (forall t, id :: Active(s, t, id) ==> id in s.issued && id !in s.results)
    && (forall t, u, id :: Active(s, t, id) && Active(s, u, id) ==> t == u)
  }

  ghost predicate InUse(s: State) {
    && (forall req :: req in s.network ==> req.id in s.issued)
    && (forall id :: id in s.results ==> id in s.issued)
    && (forall id :: id in s.store ==> id in s.issued)
    && (forall id :: id in s.sent ==> id in s.issued)
  }

  /** An id in use belongs to one insert only, and to none once its loop has ended. */
  ghost predicate OwnIds(s: State) {
    Owned(s) && InUse(s)
  }

  /** `Begin` of inserter `t` puts the new id to use. */
  ghost predicate Begins(s: State, step: Step, t: nat, id: Uuid) {
    && step.Begin? && step.t == t && step.id == id && id !in s.issued
    && id in Apply(s, step).issued && Apply(s, step).results == s.results
  }

  /** Only `Begin` puts a new id to use. */
  lemma ActiveStep(s: State, step: Step, t: nat, id: Uuid)
    requires Active(Apply(s, step), t, id)
    ensures Active(s, t, id) || Begins(s, step, t, id)
  {
  }

  /** The loop that a step ends gives up its id. */
  lemma EndedStepFreesId(s: State, step: Step, id: Uuid)
    requires OwnIds(s) && id in Apply(s, step).results && id !in s.results
    ensures id in s.issued && forall t :: !Active(Apply(s, step), t, id)
  {
    hide OnAnswer;
    assert step.Receive? || step.Cancel?;
    assert Active(s, step.t, id);
    forall t
      ensures !Active(Apply(s, step), t, id)
    {
      if t != step.t && Active(Apply(s, step), t, id) {
        ActiveStep(s, step, t, id);
      }
    }
  }

  lemma IssuedGrows(s: State, step: Step)
    ensures s.issued <= Apply(s, step).issued
  {
    hide OnAnswer, C.Apply, RouteItem;
  }

  lemma OwnedStep(s: State, step: Step)
    requires OwnIds(s)
    ensures Owned(Apply(s, step))
  {
    hide Active, Apply;
    var s' := Apply(s, step);
    forall t, id | Active(s', t, id)
      ensures Active(s, t, id) || Begins(s, step, t, id)
    {
      ActiveStep(s, step, t, id);
    }
    forall id | id in s'.results && id !in s.results
      ensures forall t :: !Active(s', t, id)
    {
      EndedStepFreesId(s, step, id);
    }
    IssuedGrows(s, step);
  }

  lemma InUseStep(s: State, step: Step)
    requires OwnIds(s)
    ensures InUse(Apply(s, step))
  {
    hide OnAnswer, C.Apply, RouteItem;
    if (step.Send? || step.Receive? || step.Cancel?) && step.t < |s.inserters| && s.inserters[step.t].Sending? {
      assert Active(s, step.t, s.inserters[step.t].req.id);
    }
  }

  lemma OwnIdsStep(s: State, step: Step)
    requires OwnIds(s)
    ensures OwnIds(Apply(s, step))
  {
    hide Apply, Owned, InUse;
    OwnedStep(s, step);
    InUseStep(s, step);
  }

  /** Under the id of an insert nothing but its own request was sent. */
  ghost predicate OnlyRequest(network: set<InsertRequest>, i: Inserter) {
    match i
    case Ready => true
    case NeedSet(id, _) => forall r :: r in network ==> r.id != id
    case Sending(req, _) => forall r :: r in network && r.id == req.id ==> r == req
  }

  /** All requests sent for one id are the same request. */
  ghost predicate SameRequest(s: State) {
    && (forall r, r' :: r in s.network && r' in s.network && r.id == r'.id ==> r == r')
    && (forall t :: 0 <= t < |s.inserters| ==> OnlyRequest(s.network, s.inserters[t]))
  }

  lemma SameRequestSend(s: State, t: nat)
    requires OwnIds(s) && SameRequest(s)
    ensures SameRequest(Apply(s, Send(t)))
  {
    if t < |s.inserters| && s.inserters[t].Sending? {
      assert Active(s, t, s.inserters[t].req.id);
      assert OnlyRequest(s.network, s.inserters[t]);
      forall u | 0 <= u < |s.inserters| && u != t
        ensures OnlyRequest(s.network + {s.inserters[t].req}, s.inserters[u])
      {
        assert OnlyRequest(s.network, s.inserters[u]);
        assert !Active(s, u, s.inserters[t].req.id);
      }
    }
  }

  lemma SameRequestStep(s: State, step: Step)
    requires OwnIds(s) && SameRequest(s)
    ensures SameRequest(Apply(s, step))
  {
    hide OnAnswer, C.Apply, C.At;
    if step.Send? {
      SameRequestSend(s, step.t);
    }
  }

  // ---- the store ----

  /** Items held before stay as they were; every other item is the one request sent for its id; an
      acknowledged request is stored. */
  ghost predicate StoreSound(s: State, before: map<Uuid, InsertRequest>) {
    && (forall id :: id in before ==> id in s.store && s.store[id] == before[id])
    && (forall id :: id in s.store && id !in before ==> s.store[id] in s.network && s.store[id].id == id)
    && (forall r :: r in s.acked ==> r in s.network && r.id in s.store)
  }

  /** The ids issued here are not those of the items held before. */
  ghost predicate FreshIds(s: State, before: map<Uuid, InsertRequest>) {
    && (forall r :: r in s.network ==> r.id !in before)
    && (forall t, id :: Active(s, t, id) ==> id !in before)
    && before.Keys <= s.issued
  }

  ghost predicate SuccessStored(s: State, before: map<Uuid, InsertRequest>) {
    forall id :: id in s.results && s.results[id] == Inserted ==> id in s.store && id !in before
  }

  lemma OnlyDeliverStores(s: State, step: Step)
    ensures s.network <= Apply(s, step).network
    ensures !step.Deliver? ==> Apply(s, step).store == s.store && Apply(s, step).acked == s.acked
  {
    hide RouteItem, OnAnswer, C.Apply;
  }

  lemma DeliverSound(s: State, req: InsertRequest, before: map<Uuid, InsertRequest>)
    requires StoreSound(s, before) && FreshIds(s, before)
    ensures StoreSound(Apply(s, Deliver(req)), before)
  {
  }

  lemma StoreSoundStep(s: State, step: Step, before: map<Uuid, InsertRequest>)
    requires StoreSound(s, before) && FreshIds(s, before)
    ensures StoreSound(Apply(s, step), before)
  {
    hide Apply;
    OnlyDeliverStores(s, step);
    if step.Deliver? {
      DeliverSound(s, step.req, before);
    }
  }

  lemma FreshIdsStep(s: State, step: Step, before: map<Uuid, InsertRequest>)
    requires FreshIds(s, before)
    ensures FreshIds(Apply(s, step), before)
  {
    hide RouteItem, OnAnswer;
    forall t, id | Active(Apply(s, step), t, id)
      ensures id !in before
    {
      ActiveStep(s, step, t, id);
    }
    if step.Send? && step.t < |s.inserters| && s.inserters[step.t].Sending? {
      assert Active(s, step.t, s.inserters[step.t].req.id);
    }
  }

  lemma SuccessStoredIntro(s: State, before: map<Uuid, InsertRequest>)
    requires forall id :: id in s.results && s.results[id] == Inserted ==> id in s.store && id !in before
    ensures SuccessStored(s, before)
  {
  }

  lemma InsertedIsStored(s: State, step: Step, before: map<Uuid, InsertRequest>, id: Uuid)
    requires StoreSound(s, before) && FreshIds(s, before) && SuccessStored(s, before)
    requires id in Apply(s, step).results && Apply(s, step).results[id] == Inserted
    ensures id in s.store && id !in before
  {
    if id !in s.results || s.results[id] != Inserted {
      assert step.Receive? && step.a == Ack;
      assert Active(s, step.t, id);
    }
  }

  lemma SuccessStoredStep(s: State, step: Step, before: map<Uuid, InsertRequest>)
    requires StoreSound(s, before) && FreshIds(s, before) && SuccessStored(s, before)
    ensures SuccessStored(Apply(s, step), before)
  {
    hide SuccessStored;
    assert s.store.Keys <= Apply(s, step).store.Keys;
    forall id | id in Apply(s, step).results && Apply(s, step).results[id] == Inserted
      ensures id in s.store && id !in before
    {
      InsertedIsStored(s, step, before, id);
    }
    SuccessStoredIntro(Apply(s, step), before);
  }

  // ---- the number of attempts ----

  ghost predicate CountedAt(s: State, i: Inserter) {
    match i
    case Ready => true
    case NeedSet(id, _) => Count(s, id) == 0
    case Sending(req, Backoff(k)) => Count(s, req.id) == k && k < MAX_ATTEMPTS
    case Sending(req, Waiting(k)) => Count(s, req.id) == k + 1 && k < MAX_ATTEMPTS
    case Sending(req, Finished(_)) => false
  }

  /** The loop's attempt counter is the number of times its request was sent. */
  ghost predicate Counted(s: State) {
    && (forall id :: Count(s, id) <= MAX_ATTEMPTS)
    && (forall id :: id !in s.issued ==> Count(s, id) == 0)
    && (forall t :: 0 <= t < |s.inserters| ==> CountedAt(s, s.inserters[t]))
  }

  lemma CountedSend(s: State, t: nat)
    requires OwnIds(s) && Counted(s)
    ensures Counted(Apply(s, Send(t)))
  {
    if t < |s.inserters| && s.inserters[t].Sending? && s.inserters[t].loop.Backoff? {
      var id := s.inserters[t].req.id;
      var s' := Apply(s, Send(t));
      assert Active(s, t, id);
      assert forall i :: Count(s', i) == if i == id then Count(s, i) + 1 else Count(s, i);
      forall u | 0 <= u < |s.inserters| && u != t
        ensures CountedAt(s', s.inserters[u])
      {
        assert !Active(s, u, id);
        assert CountedAt(s, s.inserters[u]);
      }
    }
  }

  lemma CountedReceive(s: State, step: Step)
    requires Counted(s) && (step.Receive? || step.Cancel?)
    ensures Counted(Apply(s, step))
  {
    hide RouteItem, C.Apply, C.At, Interferes;
    assert forall i :: Count(Apply(s, step), i) == Count(s, i);
  }

  lemma CountedRoute(s: State, step: Step)
    requires Counted(s) && (step.Route? || step.Abort? || step.Cache? || step.Deliver? || step.Begin?)
    ensures Counted(Apply(s, step))
  {
    hide OnAnswer, C.Apply, C.At, Interferes;
    assert forall i :: Count(Apply(s, step), i) == Count(s, i);
  }

  lemma CountedStep(s: State, step: Step)
    requires OwnIds(s) && Counted(s)
    ensures Counted(Apply(s, step))
  {
    hide Apply, Counted, OwnIds;
    match step
    case Send(t) => CountedSend(s, t);
    case Receive(_, _) => CountedReceive(s, step);
    case Cancel(_) => CountedReceive(s, step);
    case _ => CountedRoute(s, step);
  }

  // ---- every run ----

  ghost predicate Safe(s: State, before: map<Uuid, InsertRequest>) {
    AllRouted(s) && OwnIds(s) && SameRequest(s) && Counted(s)
    && StoreSound(s, before) && FreshIds(s, before) && SuccessStored(s, before)
  }

  lemma SafeStep(s: State, step: Step, before: map<Uuid, InsertRequest>)
    requires Safe(s, before)
    ensures Safe(Apply(s, step), before)
  {
    hide Apply, AllRouted, OwnIds, SameRequest, StoreSound, FreshIds, SuccessStored, Counted;
    AllRoutedStep(s, step);
    OwnIdsStep(s, step);
    SameRequestStep(s, step);
    StoreSoundStep(s, step, before);
    FreshIdsStep(s, step, before);
    SuccessStoredStep(s, step, before);
    CountedStep(s, step);
  }

  lemma {:induction false} AlwaysSafe(s: State, steps: seq<Step>, before: map<Uuid, InsertRequest>)
    requires Safe(s, before)
    ensures Safe(After(s, steps), before)
  {
    hide Apply, Safe;
    if steps != [] {
      AlwaysSafe(s, steps[..|steps| - 1], before);
      SafeStep(After(s, steps[..|steps| - 1]), steps[|steps| - 1], before);
    }
  }

  lemma InitiallySafe(s: State)
    requires Initial(s)
    ensures Safe(s, s.store)
  {
  }

  /** Versions are content hashes: no two sets share one. */
  ghost predicate VersionsUnique(history: set<CentroidSet>) {
    forall a, b :: a in history && b in history && a.version == b.version ==> a == b
  }

  /** Routing coherence: in every run, each request that was sent carries the lowest-index argmax over a set the
      server has had, under that set's version; with content-hash versions this is the only set of that version. */
  lemma RequestsCoherent(s: State, steps: seq<Step>, req: InsertRequest) returns (cs: CentroidSet)
    requires Initial(s) && req in After(s, steps).network
    ensures cs in After(s, steps).c.history && cs.version == req.version && cs.dim == |req.item.vec|
    ensures cs.version != "" && cs.vectors != []
    ensures |cs.vectors| <= 0x1_0000_0000 ==> IsLowestArgmax(cs.vectors, req.item.vec, req.clusterID)
    ensures VersionsUnique(After(s, steps).c.history) ==>
              forall a :: a in After(s, steps).c.history && a.version == req.version ==> WellRouted(req, a)
  {
    hide After, OwnIds, SameRequest, StoreSound, Counted;
    InitiallySafe(s);
    AlwaysSafe(s, steps, s.store);
    cs :| cs in After(s, steps).c.history && WellRouted(req, cs);
    AssignedIsLowestArgmax(cs.vectors, req.item.vec, Assigned(cs.vectors, req.item.vec));
  }

  /** At most once: in every run the items held before are untouched, each other item is the one request that was
      ever sent for its id, and an insert that reported success is stored with its own payload. */
  lemma AtMostOnce(s: State, steps: seq<Step>, id: Uuid)
    requires Initial(s)
    ensures var s' := After(s, steps);
      && (id in s.store ==> id in s'.store && s'.store[id] == s.store[id])
      && (id in s'.store && id !in s.store ==>
            s'.store[id].id == id && forall req :: req in s'.network && req.id == id <==> req == s'.store[id])
      && (id in s'.results && s'.results[id] == Inserted ==> id in s'.store && id !in s.store)
      && Count(s', id) <= 3
  {
    hide After;
    InitiallySafe(s);
    AlwaysSafe(s, steps, s.store);
  }

  lemma StoredStep(s: State, step: Step, id: Uuid)
    requires id in s.store
    ensures id in Apply(s, step).store && Apply(s, step).store[id] == s.store[id]
  {
    hide RouteItem, OnAnswer, C.Apply;
  }

  /** A stored item never changes. */
  lemma {:induction false} StoredForever(s: State, steps: seq<Step>, id: Uuid)
    requires id in s.store
    ensures id in After(s, steps).store && After(s, steps).store[id] == s.store[id]
  {
    hide Apply;
    if steps != [] {
      StoredForever(s, steps[..|steps| - 1], id);
      StoredStep(After(s, steps[..|steps| - 1]), steps[|steps| - 1], id);
    }
  }

  lemma EndedStep(s: State, step: Step, id: Uuid)
    requires OwnIds(s) && id in s.results
    ensures id in Apply(s, step).results && Count(Apply(s, step), id) == Count(s, id)
    ensures Apply(s, step).results[id] == s.results[id]
  {
    hide RouteItem, OnAnswer;
    if (step.Send? || step.Receive? || step.Cancel?) && step.t < |s.inserters| && s.inserters[step.t].Sending? {
      assert Active(s, step.t, s.inserters[step.t].req.id);
    }
  }

  lemma {:induction false} AlwaysOwnIds(s: State, steps: seq<Step>)
    requires OwnIds(s)
    ensures OwnIds(After(s, steps))
  {
    hide Apply, OwnIds;
    if steps != [] {
      AlwaysOwnIds(s, steps[..|steps| - 1]);
      OwnIdsStep(After(s, steps[..|steps| - 1]), steps[|steps| - 1]);
    }
  }

  /** Once a loop has ended, with success, mismatch or any error, its request is never sent again and its
      outcome stands. */
  lemma {:induction false} EndedForever(s: State, steps: seq<Step>, id: Uuid)
    requires OwnIds(s) && id in s.results
    ensures id in After(s, steps).results && After(s, steps).results[id] == s.results[id]
    ensures Count(After(s, steps), id) == Count(s, id)
  {
    hide Apply, OwnIds, Count;
    if steps != [] {
      EndedForever(s, steps[..|steps| - 1], id);
      AlwaysOwnIds(s, steps[..|steps| - 1]);
      EndedStep(After(s, steps[..|steps| - 1]), steps[|steps| - 1], id);
    }
  }

  /** What an answer that ends the loop is reported as. */
  function Reported(a: Answer): Outcome {
    match a
    case Ack => Inserted
    case Mismatch => VersionMismatch
    case OtherError(code) => Failed(code)
    case Unavailable => GaveUp
  }

  lemma AnswerOutcome(m: State, t: nat, a: Answer)
    requires OwnIds(m) && Counted(m)
    requires t < |m.inserters| && m.inserters[t].Sending? && m.inserters[t].loop.Waiting?
    requires a == Ack ==> m.inserters[t].req in m.acked
    ensures var req := m.inserters[t].req; var now := Apply(m, Receive(t, a));
      && Count(now, req.id) == Count(m, req.id) <= MAX_ATTEMPTS
      && if a == Unavailable && Count(m, req.id) < MAX_ATTEMPTS
         then now.inserters[t] == Sending(req, Backoff(Count(m, req.id))) && req.id !in now.results
         else now.inserters[t] == Ready && req.id in now.results && now.results[req.id] == Reported(a)
  {
    assert Active(m, t, m.inserters[t].req.id);
    assert CountedAt(m, m.inserters[t]);
  }

  /** In every run, an insert that receives an answer goes on only after UNAVAILABLE and only while it has sent fewer
      than three times. Every other answer, a mismatch or any other error in particular, ends it with the
      corresponding outcome, and whatever happens later its request is not sent again and the outcome stands. */
  lemma {:induction false} RetriedOnlyWhenUnavailable(s: State, steps: seq<Step>, t: nat, a: Answer, later: seq<Step>)
    requires Initial(s)
    requires var m := After(s, steps);
      && t < |m.inserters| && m.inserters[t].Sending? && m.inserters[t].loop.Waiting?
      && (a == Ack ==> m.inserters[t].req in m.acked)
    ensures var m := After(s, steps); var req := m.inserters[t].req;
      var now := Apply(m, Receive(t, a)); var end := After(now, later);
      if a == Unavailable && Count(m, req.id) < 3
      then now.inserters[t] == Sending(req, Backoff(Count(m, req.id))) && req.id !in now.results
      else
        && now.inserters[t] == Ready
        && req.id in end.results && end.results[req.id] == Reported(a) && Count(end, req.id) == Count(m, req.id)
  {
    hide After, Initial, AllRouted, SameRequest, StoreSound, FreshIds, SuccessStored;
    InitiallySafe(s);
    AlwaysSafe(s, steps, s.store);
    var m := After(s, steps);
    AnswerOutcome(m, t, a);
    if a != Unavailable || Count(m, m.inserters[t].req.id) == MAX_ATTEMPTS {
      OwnIdsStep(m, Receive(t, a));
      EndedForever(Apply(m, Receive(t, a)), later, m.inserters[t].req.id);
    }
  }

  /** An item enters the store only under the version the server then has, so with content-hash versions it sits
      in the cluster that this very set assigns to it. */
  lemma StoredInRightCluster(s: State, steps: seq<Step>, step: Step, id: Uuid)
    requires Initial(s) && id !in After(s, steps).store && id in Apply(After(s, steps), step).store
    requires VersionsUnique(After(s, steps).c.history)
    ensures WellRouted(Apply(After(s, steps), step).store[id], After(s, steps).c.current)
  {
    hide After, OwnIds, SameRequest, StoreSound, Counted;
    InitiallySafe(s);
    AlwaysSafe(s, steps, s.store);
    var s' := After(s, steps);
    assert step.Deliver? && step.req.id == id;
    assert RoutedFrom(step.req, s'.c.history);
  }
}
