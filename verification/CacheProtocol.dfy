/** Any number of callers filling and invalidating the centroid cache while the server may swap its set.
    Each step is one locked section, one server answer, or one server action. */
module CacheProtocol {
  import opened Wrappers
  import opened Centroids
  import opened CentroidCache

  /** A set together with the time at which the server answered with it. */
  datatype Stamped = Stamped(cs: CentroidSet, at: nat)

  /** Where a caller of `centroidSetCached` is. */
  datatype Caller =
    | Idle
    | Fetching                   // missed the cache, the server has not answered yet
    | Fetched(answer: Stamped)   // the server answered, the commit is still to come
    | Returned(cs: CentroidSet)
    | FetchFailed

  /** One call that returned `cs`, in invalidation epoch `epoch`. */
  datatype Return = Return(got: Stamped, epoch: nat, at: nat)

  datatype State = State(
    current: CentroidSet,         // the server's current set
    history: set<CentroidSet>,    // every set the server has had
    cache: Option<Stamped>,
    epoch: nat,                   // how many invalidations happened
    clock: nat,                   // how many steps happened
    callers: seq<Caller>,
    log: set<Return>)

  datatype Step =
    | Lookup(t: nat)
    | Answer(t: nat)
    | AnswerUnimplemented(t: nat)
    | Fail(t: nat)
    | Commit(t: nat)
    | Release(t: nat)
    | Invalidate
    | Swap(cs: CentroidSet)

  predicate At(s: State, t: nat, c: Caller) {
    t < |s.callers| && s.callers[t] == c
  }

  function Move(s: State, t: nat, c: Caller): State
    requires t < |s.callers|
  {
    s.(callers := s.callers[t := c])
  }

  /** The caller returns the cached set `x`. */
  function ReturnSet(s: State, t: nat, x: Stamped): State
    requires t < |s.callers|
  {
    Move(s, t, Returned(x.cs)).(cache := Some(x), log := s.log + {Return(x, s.epoch, s.clock)})
  }

  /** The effect of a step; a step that is not possible changes nothing but the clock. */
  function Effect(s: State, step: Step): State {
    match step
    case Lookup(t) =>
      if !At(s, t, Idle) then s
      else if s.cache.Some? then ReturnSet(s, t, s.cache.value)
      else Move(s, t, Fetching)
    case Answer(t) => if At(s, t, Fetching) then Move(s, t, Fetched(Stamped(s.current, s.clock))) else s
    case AnswerUnimplemented(t) => if At(s, t, Fetching) then Move(s, t, Fetched(Stamped(EMPTY_SET, s.clock))) else s
    case Fail(t) => if At(s, t, Fetching) then Move(s, t, FetchFailed) else s
    case Commit(t) =>
      if t < |s.callers| && s.callers[t].Fetched? then ReturnSet(s, t, Committed(s.cache, s.callers[t].answer)) else s
    case Release(t) =>
      if t < |s.callers| && (s.callers[t].Returned? || s.callers[t].FetchFailed?) then Move(s, t, Idle) else s
    case Invalidate => s.(cache := None, epoch := s.epoch + 1)
    case Swap(cs) => s.(current := cs, history := s.history + {cs})
  }

  function Apply(s: State, step: Step): State {
    Effect(s, step).(clock := s.clock + 1)
  }

  /** The state after an interleaving of steps. */
  function After(s: State, steps: seq<Step>): State {
    if steps == [] then s else Apply(After(s, steps[..|steps| - 1]), steps[|steps| - 1])
  }

  predicate Initial(s: State) {
    && s.history == {s.current} && s.cache == None && s.log == {}
    && forall t :: 0 <= t < |s.callers| ==> s.callers[t] == Idle
  }

  // ---- invariants of every interleaving ----

  /** What was fetched came from the server, before now. */
  ghost predicate Genuine(s: State, x: Stamped) {
    x.at < s.clock && (x.cs in s.history || x.cs == EMPTY_SET)
  }

  ghost predicate Sourced(s: State) {
    && s.current in s.history
    && (s.cache.Some? ==> Genuine(s, s.cache.value))
    && (forall t :: 0 <= t < |s.callers| && s.callers[t].Fetched? ==> Genuine(s, s.callers[t].answer))
    && (forall t :: 0 <= t < |s.callers| && s.callers[t].Returned? ==>
          s.callers[t].cs in s.history || s.callers[t].cs == EMPTY_SET)
  }

  /** Within one epoch all calls returned one set, the one that is cached if the epoch is the current one. */
  ghost predicate Agreed(s: State) {
    && (forall r :: r in s.log ==> r.epoch <= s.epoch && r.at < s.clock)
    && (forall r :: r in s.log && r.epoch == s.epoch ==> s.cache == Some(r.got))
    && (forall r, r' :: r in s.log && r' in s.log && r.epoch == r'.epoch ==> r.got == r'.got)
  }

  lemma SourcedStep(s: State, step: Step)
    requires Sourced(s)
    ensures Sourced(Apply(s, step))
  {
    var s' := Apply(s, step);
    assert forall x :: Genuine(s, x) ==> Genuine(s', x);
  }

  lemma AgreedStep(s: State, step: Step)
    requires Agreed(s)
    ensures Agreed(Apply(s, step))
  {
  }

  lemma {:induction false} AlwaysSourced(s: State, steps: seq<Step>)
    requires Sourced(s)
    ensures Sourced(After(s, steps))
  {
    if steps != [] {
      AlwaysSourced(s, steps[..|steps| - 1]);
      SourcedStep(After(s, steps[..|steps| - 1]), steps[|steps| - 1]);
    }
  }

  lemma {:induction false} AlwaysAgreed(s: State, steps: seq<Step>)
    requires Agreed(s)
    ensures Agreed(After(s, steps))
  {
    if steps != [] {
      AlwaysAgreed(s, steps[..|steps| - 1]);
      AgreedStep(After(s, steps[..|steps| - 1]), steps[|steps| - 1]);
    }
  }

  /** In every run, two calls return different sets only if an invalidation lies between them. */
  lemma ReturnsAgreeWithinEpoch(s: State, steps: seq<Step>, r: Return, r': Return)
    requires Initial(s) && r in After(s, steps).log && r' in After(s, steps).log
    ensures r.got != r'.got ==> r.epoch != r'.epoch
  {
    AlwaysAgreed(s, steps);
  }

  lemma {:induction false} EpochGrows(s: State, steps: seq<Step>)
    ensures s.epoch <= After(s, steps).epoch && s.clock + |steps| == After(s, steps).clock
  {
    if steps != [] {
      EpochGrows(s, steps[..|steps| - 1]);
    }
  }

  /** Once filled, the cache does not change until the next invalidation. */
  lemma {:induction false} WriteOncePerEpoch(s: State, steps: seq<Step>)
    requires s.cache.Some? && After(s, steps).epoch == s.epoch
    ensures After(s, steps).cache == s.cache
  {
    if steps != [] {
      EpochGrows(s, steps[..|steps| - 1]);
      WriteOncePerEpoch(s, steps[..|steps| - 1]);
    }
  }

  /** A call returns exactly the cache content of its hit or commit step, and only these steps, an
      invalidation apart, touch the cache; in particular a failed fetch leaves it alone. */
  lemma ReturnsCacheContent(s: State, step: Step)
    ensures forall r :: r in Apply(s, step).log && r !in s.log ==>
              Apply(s, step).cache == Some(r.got) && r.epoch == s.epoch && r.at == s.clock
    ensures Apply(s, step).cache != s.cache ==> step.Commit? || step.Invalidate?
    ensures step.Fail? ==> Apply(s, step).cache == s.cache && Apply(s, step).log == s.log
  {
  }

  /** Where each step of a call leads: a hit returns the cached set, a miss fetches, a failed fetch ends the call
      and leaves cache and log alone, and a commit returns what the cache then holds. */
  lemma CallSteps(s: State, t: nat)
    requires t < |s.callers|
    ensures s.callers[t].Idle? ==>
      var now := Apply(s, Lookup(t));
      && now.cache == s.cache
      && if s.cache.Some?
         then At(now, t, Returned(s.cache.value.cs)) && Return(s.cache.value, s.epoch, s.clock) in now.log
         else At(now, t, Fetching) && now.log == s.log
    ensures s.callers[t].Fetching? ==>
      && At(Apply(s, Fail(t)), t, FetchFailed)
      && Apply(s, Fail(t)).cache == s.cache && Apply(s, Fail(t)).log == s.log
    ensures s.callers[t].Fetched? ==>
      var now := Apply(s, Commit(t));
      && now.cache == Some(if s.cache.Some? then s.cache.value else s.callers[t].answer)
      && At(now, t, Returned(now.cache.value.cs)) && Return(now.cache.value, s.epoch, s.clock) in now.log
  {
  }

  // ---- where sets come from ----

  /** In the run `steps`, the step at time `x.at` is the server's answer to a fetching caller, and `x.cs` is its
      set at that time, or no set at all from a server without a clustered tier. */
  ghost predicate Answered(s: State, steps: seq<Step>, x: Stamped) {
    && s.clock <= x.at < s.clock + |steps|
    && var k := x.at - s.clock; var before := After(s, steps[..k]);
       match steps[k]
       case Answer(t) => At(before, t, Fetching) && x.cs == before.current
       case AnswerUnimplemented(t) => At(before, t, Fetching) && x.cs == EMPTY_SET
       case _ => false
  }

  ghost predicate Logged(s: State, cs: CentroidSet) {
    exists r :: r in s.log && r.got.cs == cs
  }

  ghost predicate Answers(s: State, steps: seq<Step>, now: State) {
    && (now.cache.Some? ==> Answered(s, steps, now.cache.value))
    && (forall t :: 0 <= t < |now.callers| && now.callers[t].Fetched? ==> Answered(s, steps, now.callers[t].answer))
    && (forall r :: r in now.log ==> Answered(s, steps, r.got))
    && (forall t :: 0 <= t < |now.callers| && now.callers[t].Returned? ==> Logged(now, now.callers[t].cs))
  }

  lemma AnsweredLater(s: State, steps: seq<Step>, step: Step, x: Stamped)
    requires Answered(s, steps, x)
    ensures Answered(s, steps + [step], x)
  {
    assert (steps + [step])[..x.at - s.clock] == steps[..x.at - s.clock];
  }

  lemma LoggedLater(s: State, step: Step, cs: CentroidSet)
    requires Logged(s, cs)
    ensures Logged(Apply(s, step), cs)
  {
    assert s.log <= Apply(s, step).log;
  }

  /** The answer given by this very step. */
  lemma AnsweredNow(s: State, steps: seq<Step>, step: Step, t: nat)
    requires var now := After(s, steps);
      now.clock == s.clock + |steps| && At(now, t, Fetching) && (step == Answer(t) || step == AnswerUnimplemented(t))
    ensures var now := After(s, steps);
      Answered(s, steps + [step], Stamped(if step == Answer(t) then now.current else EMPTY_SET, now.clock))
  {
    assert (steps + [step])[..|steps|] == steps;
  }

  lemma ReturnsLogged(s: State, step: Step)
    ensures forall t :: 0 <= t < |s.callers| && Apply(s, step).callers[t].Returned? ==>
      s.callers[t] == Apply(s, step).callers[t] || Logged(Apply(s, step), Apply(s, step).callers[t].cs)
  {
    var now := Apply(s, step);
    forall t | 0 <= t < |s.callers| && now.callers[t].Returned? && s.callers[t] != now.callers[t]
      ensures Logged(now, now.callers[t].cs)
    {
      assert step == Lookup(t) || step == Commit(t);
      assert Return(now.cache.value, s.epoch, s.clock) in now.log;
    }
  }

  lemma AnswersStep(s: State, steps: seq<Step>, step: Step)
    requires After(s, steps).clock == s.clock + |steps| && Answers(s, steps, After(s, steps))
    ensures Answers(s, steps + [step], Apply(After(s, steps), step))
  {
    hide After, Answered, Logged;
    var was := After(s, steps);
    forall x | Answered(s, steps, x)
      ensures Answered(s, steps + [step], x)
    {
      AnsweredLater(s, steps, step, x);
    }
    forall cs | Logged(was, cs)
      ensures Logged(Apply(was, step), cs)
    {
      LoggedLater(was, step, cs);
    }
    if (step.Answer? || step.AnswerUnimplemented?) && At(was, step.t, Fetching) {
      AnsweredNow(s, steps, step, step.t);
    }
    ReturnsLogged(was, step);
  }

  lemma NothingAnswered(s: State)
    requires Initial(s)
    ensures Answers(s, [], s)
  {
  }

  /** In every run, what is cached, held by a caller or returned goes back to an answer of the server at its time
      stamp; a failed fetch yields nothing that anyone could cache or return. */
  lemma {:induction false} EverySetWasAnswered(s: State, steps: seq<Step>)
    requires Initial(s)
    ensures Answers(s, steps, After(s, steps))
  {
    hide Answers, Apply;
    if steps == [] {
      NothingAnswered(s);
    } else {
      var before, step := steps[..|steps| - 1], steps[|steps| - 1];
      EverySetWasAnswered(s, before);
      EpochGrows(s, before);
      AnswersStep(s, before, step);
      assert before + [step] == steps;
    }
  }

  // ---- freshness after an invalidation ----

  /** Nothing answered before time `t0` can still reach the cache. */
  ghost predicate FreshSince(s: State, t0: nat) {
    && t0 <= s.clock
    && (s.cache.Some? ==> s.cache.value.at >= t0)
    && (forall t :: 0 <= t < |s.callers| && s.callers[t].Fetched? ==> s.callers[t].answer.at >= t0)
    && (forall r :: r in s.log && r.at >= t0 ==> r.got.at >= t0)
  }

  lemma FreshStep(s: State, step: Step, t0: nat)
    requires FreshSince(s, t0)
    ensures FreshSince(Apply(s, step), t0)
  {
  }

  lemma {:induction false} StaysFresh(s: State, steps: seq<Step>, t0: nat)
    requires FreshSince(s, t0)
    ensures FreshSince(After(s, steps), t0)
  {
    if steps != [] {
      StaysFresh(s, steps[..|steps| - 1], t0);
      FreshStep(After(s, steps[..|steps| - 1]), steps[|steps| - 1], t0);
    }
  }

  ghost predicate AnswerInFlight(s: State) {
    exists t :: 0 <= t < |s.callers| && s.callers[t].Fetched?
  }

  /** After `s`, some call can return a set that the server answered with before `s`. */
  ghost predicate CanReturnStale(s: State) {
    exists steps, r :: r in After(s, steps).log && r.at >= s.clock && r.got.at < s.clock
  }

  /** The caller that holds an old answer commits it to the emptied cache and returns it. */
  lemma OldAnswerGetsReturned(s: State, t: nat)
    requires s.cache == None && Sourced(s) && t < |s.callers| && s.callers[t].Fetched?
    ensures CanReturnStale(s)
  {
    var steps := [Commit(t)];
    assert steps[..0] == [];
    assert After(s, steps) == Apply(After(s, steps[..0]), steps[0]) == Apply(s, Commit(t));
    var r := Return(s.callers[t].answer, s.epoch, s.clock);
    assert r in After(s, steps).log && r.at >= s.clock && r.got.at < s.clock;
  }

  lemma NothingOldGetsReturned(s: State)
    requires s.cache == None && Agreed(s) && !AnswerInFlight(s)
    ensures !CanReturnStale(s)
  {
    hide After;
    assert FreshSince(s, s.clock);
    forall steps
      ensures FreshSince(After(s, steps), s.clock)
    {
      StaysFresh(s, steps, s.clock);
    }
  }

  /** An invalidation does not by itself keep stale sets out: right after it, a stale set can still be
      returned exactly when some caller holds an answer that it has not committed yet. */
  lemma StaleExactlyWhenInFlight(s: State, steps: seq<Step>)
    requires Initial(s)
    ensures var s' := Apply(After(s, steps), Invalidate);
      CanReturnStale(s') <==> AnswerInFlight(s')
  {
    hide After, CanReturnStale;
    AlwaysSourced(s, steps);
    AlwaysAgreed(s, steps);
    SourcedStep(After(s, steps), Invalidate);
    AgreedStep(After(s, steps), Invalidate);
    var s' := Apply(After(s, steps), Invalidate);
    if AnswerInFlight(s') {
      var t :| 0 <= t < |s'.callers| && s'.callers[t].Fetched?;
      OldAnswerGetsReturned(s', t);
    } else {
      NothingOldGetsReturned(s');
    }
  }

  lemma AfterSnoc(s: State, steps: seq<Step>, step: Step) returns (more: seq<Step>)
    ensures more == steps + [step] && After(s, more) == Apply(After(s, steps), step)
  {
    more := steps + [step];
    assert more[..|steps|] == steps;
  }

  lemma AfterNothing(s: State)
    ensures After(s, []) == s
  {
  }

  /** The first caller fetches, the server swaps its set, and the cache is invalidated before the commit. */
  lemma AnswerOvertakenBySwap(stale: CentroidSet, swapped: CentroidSet) returns (s: State, steps: seq<Step>)
    ensures Initial(s) && s.current == stale
    ensures steps == [Lookup(0), Answer(0), Swap(swapped), Invalidate]
    ensures After(s, steps).callers == [Fetched(Stamped(stale, 1)), Idle]
    ensures After(s, steps).cache == None && After(s, steps).current == swapped
  {
    hide After;
    s := State(stale, {stale}, None, 0, 0, [Idle, Idle], {});
    AfterNothing(s);
    steps := AfterSnoc(s, [], Lookup(0));
    assert After(s, steps).callers == [Fetching, Idle];
    steps := AfterSnoc(s, steps, Answer(0));
    assert After(s, steps).callers == [Fetched(Stamped(stale, 1)), Idle];
    steps := AfterSnoc(s, steps, Swap(swapped));
    steps := AfterSnoc(s, steps, Invalidate);
  }

  /** The documented promise that the next call refetches fails for two callers: one fetches the old set, the
      server swaps and the cache is invalidated, the first commits, and the second call returns the old set. */
  lemma OldSetSurvivesInvalidation(stale: CentroidSet, swapped: CentroidSet) returns (s: State, steps: seq<Step>)
    ensures Initial(s) && s.current == stale
    ensures steps == [Lookup(0), Answer(0), Swap(swapped), Invalidate, Commit(0), Lookup(1)]
    ensures After(s, steps).current == swapped && At(After(s, steps), 1, Returned(stale))
  {
    hide After;
    s, steps := AnswerOvertakenBySwap(stale, swapped);
    steps := AfterSnoc(s, steps, Commit(0));
    assert After(s, steps).callers == [Returned(stale), Idle];
    steps := AfterSnoc(s, steps, Lookup(1));
  }
}
