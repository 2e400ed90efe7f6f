/** Any number of concurrent inserts over the centroid cache, a channel that may lose, delay or repeat
    requests and lose acks, and a server that may swap its set, apply an insert, or reject it. */
module InsertProtocol {
  import opened Wrappers
  import opened Vectors
  import opened Centroids
  import opened Retry
  import C = CacheProtocol

  /** Where one insert is; its `centroidSetCached` call is the cache caller of the same number. */
  datatype Inserter =
    | Ready
    | NeedSet(id: Uuid, item: Item)
    | Sending(req: InsertRequest, loop: Loop)

  datatype State = State(
    c: C.State,
    inserters: seq<Inserter>,
    network: set<InsertRequest>,         // every request sent so far; may be delivered at any later time, repeatedly
    store: map<Uuid, InsertRequest>,     // the server's items
    acked: set<InsertRequest>,           // requests the server has answered with success
    issued: set<Uuid>,                   // ids in use
    sent: map<Uuid, nat>,                // how often the request of an id was sent
    results: map<Uuid, Outcome>)         // what the retry loop of an id ended with

  datatype Step =
    | Cache(step: C.Step)
    | Begin(t: nat, id: Uuid, item: Item)
    | Route(t: nat)
    | Abort(t: nat)
    | Send(t: nat)
    | Cancel(t: nat)
    | Receive(t: nat, a: Answer)
    | Deliver(req: InsertRequest)

  /** The request `Insert` builds against a set, unless the set cannot route the vector. */
  function RouteItem(id: Uuid, item: Item, cs: CentroidSet): Option<InsertRequest> {
    if !Enabled(cs) || cs.dim != |item.vec| then None
    else Some(InsertRequest(id, item, ToUInt32(Assigned(cs.vectors, item.vec)), cs.version))
  }

  function Count(s: State, id: Uuid): nat {
    if id in s.sent then s.sent[id] else 0
  }

  function Move(s: State, t: nat, i: Inserter): State
    requires t < |s.inserters|
  {
    s.(inserters := s.inserters[t := i])
  }

  /** The retry loop of inserter `t` goes to `loop`. */
  function Continue(s: State, t: nat, req: InsertRequest, loop: Loop): State
    requires t < |s.inserters|
  {
    match loop
    case Finished(o) => Move(s, t, Ready).(results := s.results[req.id := o])
    case _ => Move(s, t, Sending(req, loop))
  }

  /** A cache step of the environment may not end the call of an insert that waits for its set. */
  predicate Interferes(s: State, step: C.Step) {
    step.Release? && step.t < |s.inserters| && s.inserters[step.t].NeedSet?
  }

  function Apply(s: State, step: Step): State {
    match step
    case Cache(cstep) => if Interferes(s, cstep) then s else s.(c := C.Apply(s.c, cstep))
    case Begin(t, id, item) =>
      if t < |s.inserters| && s.inserters[t].Ready? && C.At(s.c, t, C.Idle) && id !in s.issued
      then Move(s, t, NeedSet(id, item)).(issued := s.issued + {id})
      else s
    case Route(t) =>
      if t < |s.inserters| && s.inserters[t].NeedSet? && t < |s.c.callers| && s.c.callers[t].Returned? then
        var routed := RouteItem(s.inserters[t].id, s.inserters[t].item, s.c.callers[t].cs);
        Move(s, t, if routed.Some? then Sending(routed.value, Backoff(0)) else Ready).(c := C.Apply(s.c, C.Release(t)))
      else s
    case Abort(t) =>
      if t < |s.inserters| && s.inserters[t].NeedSet? && C.At(s.c, t, C.FetchFailed)
      then Move(s, t, Ready).(c := C.Apply(s.c, C.Release(t)))
      else s
    case Send(t) =>
      if t < |s.inserters| && s.inserters[t].Sending? && s.inserters[t].loop.Backoff? then
        var Sending(req, loop) := s.inserters[t];
        Move(s, t, Sending(req, Waiting(loop.attempt)))
          .(network := s.network + {req}, sent := s.sent[req.id := Count(s, req.id) + 1])
      else s
    case Cancel(t) =>
      if t < |s.inserters| && s.inserters[t].Sending? && s.inserters[t].loop.Backoff? && s.inserters[t].loop.attempt > 0
      then Continue(s, t, s.inserters[t].req, Finished(Cancelled))
      else s
    case Receive(t, a) =>
      if t < |s.inserters| && s.inserters[t].Sending? && s.inserters[t].loop.Waiting?
         && (a == Ack ==> s.inserters[t].req in s.acked)
      then Continue(s, t, s.inserters[t].req, OnAnswer(s.inserters[t].loop.attempt, a))
      else s
    case Deliver(req) =>
      if req !in s.network || req.version != s.c.current.version then s
      else if req.id in s.store then s.(acked := s.acked + {req})
      else s.(acked := s.acked + {req}, store := s.store[req.id := req])
  }

  function After(s: State, steps: seq<Step>): State {
    if steps == [] then s else Apply(After(s, steps[..|steps| - 1]), steps[|steps| - 1])
  }

  /** Nothing is under way; the ids the server already holds are in use. */
  predicate Initial(s: State) {
    && C.Initial(s.c)
    && (forall t :: 0 <= t < |s.inserters| ==> s.inserters[t] == Ready)
    && s.network == {} && s.acked == {} && s.issued == s.store.Keys && s.sent == map[] && s.results == map[]
  }

  // ---- routing coherence ----

  /** `req` carries the lowest-index argmax over `cs`, whose version it echoes. */
  ghost predicate WellRouted(req: InsertRequest, cs: CentroidSet) {
    RouteItem(req.id, req.item, cs) == Some(req)
  }

  ghost predicate RoutedFrom(req: InsertRequest, history: set<CentroidSet>) {
    exists cs :: cs in history && WellRouted(req, cs)
  }

  ghost predicate AllRouted(s: State) {
    && C.Sourced(s.c)
    && (forall t :: 0 <= t < |s.inserters| && s.inserters[t].Sending? ==> RoutedFrom(s.inserters[t].req, s.c.history))
    && (forall req :: req in s.network ==> RoutedFrom(req, s.c.history))
  }

  lemma HistoryGrows(s: C.State, step: C.Step)
    ensures s.history <= C.Apply(s, step).history
  {
  }

  lemma RouteKeeps(s: State, step: Step)
    requires AllRouted(s) && (step.Route? || step.Abort?)
    ensures forall t :: 0 <= t < |s.inserters| && Apply(s, step).inserters[t].Sending? ==>
              RoutedFrom(Apply(s, step).inserters[t].req, s.c.history)
  {
  }

  lemma {:induction false} AllRoutedStep(s: State, step: Step)
    requires AllRouted(s)
    ensures AllRouted(Apply(s, step))
  {
    hide RouteItem, OnAnswer;
    if step.Cache? {
      C.SourcedStep(s.c, step.step);
      HistoryGrows(s.c, step.step);
    } else if step.Route? || step.Abort? {
      C.SourcedStep(s.c, C.Release(step.t));
      HistoryGrows(s.c, C.Release(step.t));
      RouteKeeps(s, step);
    }
  }

  lemma {:induction false} AlwaysRouted(s: State, steps: seq<Step>)
    requires AllRouted(s)
    ensures AllRouted(After(s, steps))
  {
    hide Apply, AllRouted;
    if steps != [] {
      AlwaysRouted(s, steps[..|steps| - 1]);
      AllRoutedStep(After(s, steps[..|steps| - 1]), steps[|steps| - 1]);
    }
  }
}
