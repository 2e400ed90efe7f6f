/** Whole runs of inserts: the payload an insert was begun with is the one that is sent and stored, an insert that
    loses an ack still gets through, and a context that ends does so between attempts only. */
module InsertRuns {
  import opened Wrappers
  import opened Centroids
  import opened Retry
  import opened InsertProtocol
  import opened InsertTheorems
  import C = CacheProtocol

  // ---- payloads ----

  /** Step `k` of the run began the insert of `item` under the id, which nothing used before. */
  ghost predicate BeganAt(s: State, steps: seq<Step>, k: nat, id: Uuid, item: Item) {
    && k < |steps| && steps[k].Begin? && steps[k].id == id && steps[k].item == item
    && var before := After(s, steps[..k]);
       && id !in before.issued
       && steps[k].t < |before.inserters| && before.inserters[steps[k].t].Ready?
       && Apply(before, steps[k]).inserters[steps[k].t] == NeedSet(id, item)
  }

  ghost predicate Began(s: State, steps: seq<Step>, id: Uuid, item: Item) {
    exists k: nat :: BeganAt(s, steps, k, id, item)
  }

  ghost predicate InserterAsGiven(s: State, steps: seq<Step>, i: Inserter) {
    match i
    case Ready => true
    case NeedSet(id, item) => Began(s, steps, id, item)
    case Sending(req, _) => Began(s, steps, req.id, req.item)
  }

  ghost predicate AsGiven(s: State, steps: seq<Step>, now: State) {
    && (forall t :: 0 <= t < |now.inserters| ==> InserterAsGiven(s, steps, now.inserters[t]))
    && (forall req :: req in now.network ==> Began(s, steps, req.id, req.item))
  }

  lemma BeganLater(s: State, steps: seq<Step>, step: Step, id: Uuid, item: Item)
    requires Began(s, steps, id, item)
    ensures Began(s, steps + [step], id, item)
  {
    hide After, Apply;
    var k: nat :| BeganAt(s, steps, k, id, item);
    assert (steps + [step])[..k] == steps[..k];
    assert BeganAt(s, steps + [step], k, id, item);
  }

  lemma BeganNow(s: State, steps: seq<Step>, step: Step)
    requires step.Begin? && step.id !in After(s, steps).issued && step.t < |After(s, steps).inserters|
    requires After(s, steps).inserters[step.t].Ready?
    requires Apply(After(s, steps), step).inserters[step.t] == NeedSet(step.id, step.item)
    ensures Began(s, steps + [step], step.id, step.item)
  {
    assert (steps + [step])[..|steps|] == steps;
    assert BeganAt(s, steps + [step], |steps|, step.id, step.item);
  }

  /** What a step can turn one inserter into: only `Begin` brings in an id or an item. */
  lemma SamePayload(s: State, step: Step, t: nat)
    requires t < |s.inserters|
    ensures match Apply(s, step).inserters[t]
      case Ready => true
      case NeedSet(id, item) => s.inserters[t] == NeedSet(id, item)
        || (step == Begin(t, id, item) && id !in s.issued && s.inserters[t].Ready?)
      case Sending(req, _) =>
        || s.inserters[t] == NeedSet(req.id, req.item)
        || (s.inserters[t].Sending? && s.inserters[t].req == req)
  {
    hide OnAnswer, C.Apply;
  }

  lemma SamePayloadSent(s: State, step: Step, req: InsertRequest)
    requires req in Apply(s, step).network
    ensures req in s.network
      || (step.Send? && step.t < |s.inserters| && s.inserters[step.t].Sending? && s.inserters[step.t].req == req)
  {
    hide RouteItem, OnAnswer, C.Apply;
  }

  lemma SameInserters(s: State, step: Step)
    ensures |Apply(s, step).inserters| == |s.inserters|
  {
    hide RouteItem, OnAnswer, C.Apply;
  }

  lemma AsGivenStep(s: State, steps: seq<Step>, step: Step)
    requires AsGiven(s, steps, After(s, steps))
    ensures AsGiven(s, steps + [step], Apply(After(s, steps), step))
  {
    hide After, Apply, Began;
    var was := After(s, steps);
    var now := Apply(was, step);
    SameInserters(was, step);
    forall id, item | Began(s, steps, id, item)
      ensures Began(s, steps + [step], id, item)
    {
      BeganLater(s, steps, step, id, item);
    }
    forall t | 0 <= t < |now.inserters|
      ensures InserterAsGiven(s, steps + [step], now.inserters[t])
    {
      assert InserterAsGiven(s, steps, was.inserters[t]);
      SamePayload(was, step, t);
      if now.inserters[t].NeedSet? && now.inserters[t] != was.inserters[t] {
        BeganNow(s, steps, step);
      }
    }
    forall req | req in now.network
      ensures Began(s, steps + [step], req.id, req.item)
    {
      SamePayloadSent(was, step, req);
      if req !in was.network {
        assert InserterAsGiven(s, steps, was.inserters[step.t]);
      }
    }
  }

  lemma NothingGiven(s: State)
    requires Initial(s)
    ensures AsGiven(s, [], s)
  {
  }

  lemma {:induction false} AlwaysAsGiven(s: State, steps: seq<Step>)
    requires Initial(s)
    ensures AsGiven(s, steps, After(s, steps))
  {
    hide AsGiven, Apply;
    if steps == [] {
      NothingGiven(s);
    } else {
      var before := steps[..|steps| - 1];
      AlwaysAsGiven(s, before);
      AsGivenStep(s, before, steps[|steps| - 1]);
      assert before + [steps[|steps| - 1]] == steps;
    }
  }

  lemma {:induction false} IssuedKept(s: State, steps: seq<Step>, m: nat, n: nat)
    requires m <= n <= |steps|
    ensures After(s, steps[..m]).issued <= After(s, steps[..n]).issued
  {
    hide Apply;
    if m < n {
      IssuedKept(s, steps, m, n - 1);
      assert steps[..n][..n - 1] == steps[..n - 1];
      IssuedGrows(After(s, steps[..n - 1]), steps[n - 1]);
    }
  }

  lemma BeginIssues(s: State, step: Step)
    requires step.Begin? && step.t < |s.inserters| && s.inserters[step.t].Ready?
    requires Apply(s, step).inserters[step.t] == NeedSet(step.id, step.item)
    ensures step.id in Apply(s, step).issued
  {
  }

  lemma BeganEarlier(s: State, steps: seq<Step>, j: nat, k: nat, id: Uuid, item: Item)
    requires BeganAt(s, steps, j, id, item) && j < k <= |steps|
    ensures id in After(s, steps[..k]).issued
  {
    hide Apply;
    BeginIssues(After(s, steps[..j]), steps[j]);
    assert steps[..j + 1][..j] == steps[..j];
    IssuedKept(s, steps, j + 1, k);
  }

  /** An id is begun at most once in a run, so the payload it was begun with is one payload. */
  lemma BeganOnce(s: State, steps: seq<Step>, j: nat, k: nat, id: Uuid, a: Item, b: Item)
    requires BeganAt(s, steps, j, id, a) && BeganAt(s, steps, k, id, b)
    ensures j == k && a == b
  {
    if j < k {
      BeganEarlier(s, steps, j, k, id, a);
    } else if k < j {
      BeganEarlier(s, steps, k, j, id, b);
    }
  }

  lemma SentAsGiven(s: State, steps: seq<Step>, req: InsertRequest)
    requires AsGiven(s, steps, After(s, steps)) && req in After(s, steps).network
    ensures Began(s, steps, req.id, req.item)
  {
  }

  /** An item that is stored, and was not there before, is stored with the vector, metadata and tags that the insert
      of its id was begun with. */
  lemma StoredAsGiven(s: State, steps: seq<Step>, id: Uuid)
    requires Initial(s) && id in After(s, steps).store && id !in s.store
    ensures Began(s, steps, id, After(s, steps).store[id].item)
  {
    hide After, AsGiven, Began;
    AlwaysAsGiven(s, steps);
    AtMostOnce(s, steps, id);
    SentAsGiven(s, steps, After(s, steps).store[id]);
  }

  // ---- an insert that loses an ack ----

  lemma AfterSnoc(s: State, steps: seq<Step>, step: Step) returns (more: seq<Step>)
    ensures more == steps + [step] && After(s, more) == Apply(After(s, steps), step)
  {
    more := steps + [step];
    assert more[..|steps|] == steps;
  }

  lemma AfterNothing(s: State)
    ensures After(s, []) == s
  {
  }

  /** One caller alone fetches the server's set. */
  lemma FetchRuns(s: State, id: Uuid, item: Item) returns (steps: seq<Step>)
    requires Initial(s) && |s.inserters| > 0 && |s.c.callers| > 0 && id !in s.issued
    ensures steps == [Begin(0, id, item), Cache(C.Lookup(0)), Cache(C.Answer(0)), Cache(C.Commit(0))]
    ensures var now := After(s, steps);
      && now.c.callers == s.c.callers[0 := C.Returned(s.c.current)] && now.c.current == s.c.current
      && now == s.(c := now.c, inserters := s.inserters[0 := NeedSet(id, item)], issued := s.issued + {id})
  {
    hide After;
    AfterNothing(s);
    steps := AfterSnoc(s, [], Begin(0, id, item));
    steps := AfterSnoc(s, steps, Cache(C.Lookup(0)));
    assert After(s, steps).c.callers == s.c.callers[0 := C.Fetching];
    steps := AfterSnoc(s, steps, Cache(C.Answer(0)));
    assert After(s, steps).c.callers[0].Fetched?;
    steps := AfterSnoc(s, steps, Cache(C.Commit(0)));
    assert After(s, steps).c.callers == s.c.callers[0 := C.Returned(s.c.current)];
  }

  lemma ReleaseKeepsServer(c: C.State)
    ensures C.Apply(c, C.Release(0)).current == c.current
  {
  }

  /** The first attempt: the server stores the item, but the ack is lost. */
  lemma FirstAttempt(s: State, steps: seq<Step>, req: InsertRequest) returns (more: seq<Step>)
    requires var m := After(s, steps);
      && |m.inserters| > 0 && m.inserters[0] == Sending(req, Backoff(0))
      && req.id !in m.sent && req.id !in m.store && req.version == m.c.current.version
    ensures more == steps + [Send(0), Deliver(req), Receive(0, Unavailable)]
    ensures var m := After(s, steps);
      After(s, more) == m.(inserters := m.inserters[0 := Sending(req, Backoff(1))], network := m.network + {req},
                           sent := m.sent[req.id := 1], store := m.store[req.id := req], acked := m.acked + {req})
  {
    hide After;
    var m := After(s, steps);
    more := AfterSnoc(s, steps, Send(0));
    more := AfterSnoc(s, more, Deliver(req));
    assert After(s, more).inserters == m.inserters[0 := Sending(req, Waiting(0))];
    more := AfterSnoc(s, more, Receive(0, Unavailable));
    assert After(s, more).inserters == m.inserters[0 := Sending(req, Backoff(1))];
  }

  /** The second attempt: the server finds the id there and acknowledges. */
  lemma SecondAttempt(s: State, steps: seq<Step>, req: InsertRequest) returns (more: seq<Step>)
    requires var m := After(s, steps);
      && |m.inserters| > 0 && m.inserters[0] == Sending(req, Backoff(1)) && req in m.network && req in m.acked
      && req.id in m.sent && m.sent[req.id] == 1 && req.id in m.store && req.version == m.c.current.version
    ensures more == steps + [Send(0), Deliver(req), Receive(0, Ack)]
    ensures var m := After(s, steps);
      After(s, more) == m.(inserters := m.inserters[0 := Ready], sent := m.sent[req.id := 2],
                           results := m.results[req.id := Inserted])
  {
    hide After;
    var m := After(s, steps);
    more := AfterSnoc(s, steps, Send(0));
    assert After(s, more).network == m.network;
    more := AfterSnoc(s, more, Deliver(req));
    assert After(s, more).acked == m.acked;
    more := AfterSnoc(s, more, Receive(0, Ack));
    assert After(s, more).inserters == m.inserters[0 := Ready];
  }

  /** An insert whose first ack is lost is sent twice with the same request, stored once, and reported as inserted. */
  lemma LostAckRun(s: State, id: Uuid, item: Item) returns (steps: seq<Step>, req: InsertRequest)
    requires Initial(s) && |s.inserters| > 0 && |s.c.callers| > 0 && id !in s.issued
    requires s.c.current.version != "" && s.c.current.vectors != [] && s.c.current.dim == |item.vec|
    ensures steps == [Begin(0, id, item), Cache(C.Lookup(0)), Cache(C.Answer(0)), Cache(C.Commit(0)), Route(0),
                      Send(0), Deliver(req), Receive(0, Unavailable), Send(0), Deliver(req), Receive(0, Ack)]
    ensures req.id == id && req.item == item && req.version == s.c.current.version
    ensures var now := After(s, steps);
      && now.results == s.results[id := Inserted] && now.store == s.store[id := req]
      && now.sent == s.sent[id := 2] && now.network == {req} && now.inserters == s.inserters
  {
    hide After, C.Apply;
    var fetched := FetchRuns(s, id, item);
    steps := AfterSnoc(s, fetched, Route(0));
    req := RouteItem(id, item, s.c.current).value;
    assert After(s, steps).inserters == s.inserters[0 := Sending(req, Backoff(0))];
    ReleaseKeepsServer(After(s, fetched).c);
    steps := FirstAttempt(s, steps, req);
    steps := SecondAttempt(s, steps, req);
    assert After(s, steps).inserters == s.inserters;
  }

  // ---- cancellation ----

  /** In every run, a context that ends stops an insert only after an attempt and before the next, and the insert is
      then reported as cancelled. */
  lemma CancelledBetweenAttempts(s: State, steps: seq<Step>, t: nat)
    requires Initial(s) && Apply(After(s, steps), Cancel(t)) != After(s, steps)
    ensures var m := After(s, steps);
      && t < |m.inserters| && m.inserters[t].Sending? && m.inserters[t].loop.Backoff?
      && 1 <= Count(m, m.inserters[t].req.id) < 3
      && Apply(m, Cancel(t)).inserters[t] == Ready
      && Apply(m, Cancel(t)).results == m.results[m.inserters[t].req.id := Cancelled]
  {
    hide After, Initial, AllRouted, OwnIds, SameRequest, StoreSound, FreshIds, SuccessStored;
    InitiallySafe(s);
    AlwaysSafe(s, steps, s.store);
    assert CountedAt(After(s, steps), After(s, steps).inserters[t]);
  }

  // ---- dead ends ----

  /** An insert that gets no set, or one that cannot route its vector, ends without sending anything. */
  lemma NothingSentWithoutRoute(s: State, t: nat, step: Step)
    requires t < |s.inserters| && s.inserters[t].NeedSet? && t < |s.c.callers|
    requires
      || (step == Abort(t) && s.c.callers[t].FetchFailed?)
      || (step == Route(t) && s.c.callers[t].Returned?
          && var cs := s.c.callers[t].cs;
             cs.version == "" || cs.vectors == [] || cs.dim != |s.inserters[t].item.vec|)
    ensures var now := Apply(s, step);
      && now.inserters == s.inserters[t := Ready]
      && now.network == s.network && now.sent == s.sent && now.store == s.store && now.results == s.results
  {
  }

  /** The server turns away a request that was routed by another set than its current one. */
  lemma StaleRequestRejected(s: State, req: InsertRequest)
    requires req.version != s.c.current.version
    ensures Apply(s, Deliver(req)) == s
  {
  }
}
