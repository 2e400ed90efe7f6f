/** Any number of threads encrypting, decrypting and closing one key bundle under its mutex. Each step is one
    lock operation, one native call, or one native close. */
module BundleProtocol {
  import opened Wrappers
  import K = KeyBundle

  type Handle = K.Handle

  datatype Op = Encrypt | Decrypt | Close

  datatype Thread =
    | Idle
    | Wanting(op: Op)
    | Holding(op: Op)             // inside the locked section, before the nil check or the first close
    | InCall(op: Op, h: Handle)   // inside a native call on `h`
    | ClosingDec                  // enc is done, dec is next
    | ClosingCtx                  // dec is done, the context is next

  datatype Reply = Guarded | Served

  datatype State = State(
    lock: Option<nat>,
    enc: Option<Handle>,
    dec: Option<Handle>,
    ckks: Option<Handle>,
    live: set<Handle>,        // handles open natively
    closed: seq<Handle>,      // native closes, in order
    threads: seq<Thread>,
    replies: seq<Reply>)      // what the finished encrypt and decrypt operations returned

  datatype Step =
    | Start(t: nat, op: Op)
    | Acquire(t: nat)
    | Check(t: nat)
    | Finish(t: nat)
    | CloseNext(t: nat)

  function Move(s: State, t: nat, th: Thread): State
    requires t < |s.threads|
  {
    s.(threads := s.threads[t := th])
  }

  function Unlock(s: State, t: nat): State
    requires t < |s.threads|
  {
    Move(s, t, Idle).(lock := None)
  }

  function HandleFor(s: State, op: Op): Option<Handle> {
    match op
    case Encrypt => s.enc
    case Decrypt => s.dec
    case Close => None
  }

  function Released(s: State, h: Option<Handle>): State {
    if h.None? then s else s.(live := s.live - {h.value}, closed := s.closed + [h.value])
  }

  /** The effect of a step; a step that is not possible changes nothing. */
  function Apply(s: State, step: Step): State {
    var t := step.t;
    if t >= |s.threads| then s
    else
      match (step, s.threads[t])
      case (Start(_, op), Idle) => Move(s, t, Wanting(op))
      case (Acquire(_), Wanting(op)) => if s.lock.None? then Move(s, t, Holding(op)).(lock := Some(t)) else s
      case (Check(_), Holding(op)) =>
        if op == Close then s
        else if HandleFor(s, op).None? then Unlock(s, t).(replies := s.replies + [Guarded])
        else Move(s, t, InCall(op, HandleFor(s, op).value))
      case (Finish(_), InCall(_, _)) => Unlock(s, t).(replies := s.replies + [Served])
      case (CloseNext(_), Holding(op)) =>
        if op == Close then Move(Released(s, s.enc), t, ClosingDec).(enc := None) else s
      case (CloseNext(_), ClosingDec) => Move(Released(s, s.dec), t, ClosingCtx).(dec := None)
      case (CloseNext(_), ClosingCtx) => Unlock(Released(s, s.ckks), t).(ckks := None)
      case _ => s
  }

  function After(s: State, steps: seq<Step>): State {
    if steps == [] then s else Apply(After(s, steps[..|steps| - 1]), steps[|steps| - 1])
  }

  /** The handles the bundle still holds, in the order in which `close` releases them. */
  function Held(s: State): seq<Handle> {
    K.Listed(s.enc) + K.Listed(s.dec) + K.Listed(s.ckks)
  }

  predicate Distinct(hs: seq<Handle>) {
    forall i, j :: 0 <= i < j < |hs| ==> hs[i] != hs[j]
  }

  /** A freshly opened bundle: distinct open handles, nothing closed, no thread inside. */
  predicate Opened(s: State) {
    && s.lock == None && s.closed == [] && s.replies == [] && Distinct(Held(s))
    && (forall h :: h in Held(s) ==> h in s.live)
    && (forall t :: 0 <= t < |s.threads| ==> s.threads[t] == Idle)
  }

  // ---- invariants of every interleaving ----

  predicate Inside(th: Thread) {
    !th.Idle? && !th.Wanting?
  }

  /** Exactly the lock holder is inside the locked section. */
  ghost predicate Exclusive(s: State) {
    && (s.lock.Some? ==> s.lock.value < |s.threads|)
    && (forall t :: 0 <= t < |s.threads| ==> (Inside(s.threads[t]) <==> s.lock == Some(t)))
  }

  predicate CallHeld(s: State, th: Thread) {
    th.InCall? ==> HandleFor(s, th.op) == Some(th.h)
  }

  /** A native call in progress runs on a handle that the bundle holds. */
  ghost predicate CallsHeld(s: State) {
    forall t :: 0 <= t < |s.threads| ==> CallHeld(s, s.threads[t])
  }

  /** What was closed so far and what is still held make up the original handles `all`, in order; closed handles
      are not live, held ones are. */
  ghost predicate Conserved(s: State, all: seq<Handle>) {
    && s.closed + Held(s) == all
    && (forall h :: h in Held(s) ==> h in s.live)
    && (forall h :: h in s.closed ==> h !in s.live)
  }

  predicate PastFields(s: State, th: Thread) {
    && (th.ClosingDec? ==> s.enc == None)
    && (th.ClosingCtx? ==> s.enc == None && s.dec == None)
  }

  /** A thread that closes has emptied the fields it is past. */
  ghost predicate ClosesInOrder(s: State) {
    forall t :: 0 <= t < |s.threads| ==> PastFields(s, s.threads[t])
  }

  lemma ExclusiveStep(s: State, step: Step)
    requires Exclusive(s)
    ensures Exclusive(Apply(s, step))
  {
  }

  predicate Closing(th: Thread) {
    th == Holding(Close) || th == ClosingDec || th == ClosingCtx
  }

  /** Only the steps of a Close touch the handles. */
  lemma HandlesTouched(s: State, step: Step)
    ensures var now := Apply(s, step);
      (step.CloseNext? && step.t < |s.threads| && Closing(s.threads[step.t]))
      || (now.enc == s.enc && now.dec == s.dec && now.ckks == s.ckks && now.live == s.live && now.closed == s.closed)
  {
  }

  /** A step moves its own thread only. */
  lemma OneThreadMoves(s: State, step: Step)
    ensures |Apply(s, step).threads| == |s.threads|
    ensures forall t :: 0 <= t < |s.threads| && t != step.t ==> Apply(s, step).threads[t] == s.threads[t]
  {
  }

  lemma CallHeldAt(s: State, step: Step, t: nat)
    requires Exclusive(s) && t < |s.threads| && CallHeld(s, s.threads[t])
    ensures CallHeld(Apply(s, step), Apply(s, step).threads[t])
  {
    if t != step.t {
      OneThreadMoves(s, step);
      HandlesTouched(s, step);
    }
  }

  lemma CallsHeldStep(s: State, step: Step)
    requires Exclusive(s) && CallsHeld(s)
    ensures CallsHeld(Apply(s, step))
  {
    hide Apply, CallHeld;
    OneThreadMoves(s, step);
    forall t | 0 <= t < |s.threads|
      ensures CallHeld(Apply(s, step), Apply(s, step).threads[t])
    {
      assert CallHeld(s, s.threads[t]);
      CallHeldAt(s, step, t);
    }
  }

  lemma PastFieldsAt(s: State, step: Step, t: nat)
    requires t < |s.threads| && PastFields(s, s.threads[t])
    ensures PastFields(Apply(s, step), Apply(s, step).threads[t])
  {
    if t != step.t {
      OneThreadMoves(s, step);
    }
  }

  lemma ClosesInOrderStep(s: State, step: Step)
    requires ClosesInOrder(s)
    ensures ClosesInOrder(Apply(s, step))
  {
    hide Apply, PastFields;
    OneThreadMoves(s, step);
    forall t | 0 <= t < |s.threads|
      ensures PastFields(Apply(s, step), Apply(s, step).threads[t])
    {
      assert PastFields(s, s.threads[t]);
      PastFieldsAt(s, step, t);
    }
  }

  /** Moving the first held handle to the closed ones. */
  lemma HandOver(closed: seq<Handle>, h: Handle, rest: seq<Handle>, all: seq<Handle>)
    requires closed + ([h] + rest) == all && Distinct(all)
    ensures (closed + [h]) + rest == all
    ensures h !in rest
  {
    assert closed + ([h] + rest) == (closed + [h]) + rest;
    forall k | 0 <= k < |rest| ensures rest[k] != h {
      assert all[|closed|] == h && all[|closed| + 1 + k] == rest[k];
    }
  }

  lemma CloseStep(s: State, t: nat, all: seq<Handle>)
    requires Conserved(s, all) && Distinct(all)
    requires t < |s.threads| && Closing(s.threads[t]) && PastFields(s, s.threads[t])
    ensures Conserved(Apply(s, CloseNext(t)), all)
  {
    hide Distinct;
    var now := Apply(s, CloseNext(t));
    var th := s.threads[t];
    var h := if th == Holding(Close) then s.enc else if th == ClosingDec then s.dec else s.ckks;
    assert Held(s) == K.Listed(h) + Held(now);
    if h.Some? {
      HandOver(s.closed, h.value, Held(now), all);
    } else {
      assert Held(s) == Held(now);
    }
  }

  lemma ConservedStep(s: State, step: Step, all: seq<Handle>)
    requires ClosesInOrder(s) && Conserved(s, all) && Distinct(all)
    ensures Conserved(Apply(s, step), all)
  {
    hide Distinct, Apply, PastFields;
    HandlesTouched(s, step);
    if step.CloseNext? && step.t < |s.threads| && Closing(s.threads[step.t]) {
      CloseStep(s, step.t, all);
    }
  }

  // ---- every run of an opened bundle ----

  /** A field holds its original handle until it is emptied for good. */
  predicate Original(s: State, start: State) {
    s.enc in {None, start.enc} && s.dec in {None, start.dec} && s.ckks in {None, start.ckks}
  }

  ghost predicate Safe(s: State, start: State) {
    Exclusive(s) && CallsHeld(s) && ClosesInOrder(s) && Conserved(s, Held(start)) && Original(s, start)
  }

  lemma OpenedSafe(start: State)
    requires Opened(start)
    ensures Safe(start, start)
  {
    assert [] + Held(start) == Held(start);
  }

  lemma OriginalStep(s: State, step: Step, start: State)
    requires Original(s, start)
    ensures Original(Apply(s, step), start)
  {
  }

  lemma SafeStep(s: State, step: Step, start: State)
    requires Safe(s, start) && Distinct(Held(start))
    ensures Safe(Apply(s, step), start)
  {
    hide Apply, Held, Distinct, CallsHeld, ClosesInOrder, Conserved, Exclusive, Original;
    ExclusiveStep(s, step);
    CallsHeldStep(s, step);
    ClosesInOrderStep(s, step);
    ConservedStep(s, step, Held(start));
    OriginalStep(s, step, start);
  }

  lemma {:induction false} AlwaysSafe(start: State, steps: seq<Step>)
    requires Opened(start)
    ensures Safe(After(start, steps), start)
  {
    hide Apply, Held, Distinct, CallsHeld, ClosesInOrder, Conserved, Exclusive;
    if steps == [] {
      OpenedSafe(start);
    } else {
      var s, step := After(start, steps[..|steps| - 1]), steps[|steps| - 1];
      AlwaysSafe(start, steps[..|steps| - 1]);
      SafeStep(s, step, start);
    }
  }

  lemma CalledIsHeld(s: State, t: nat)
    requires CallsHeld(s) && t < |s.threads| && s.threads[t].InCall?
    ensures s.threads[t].h in Held(s)
  {
    assert CallHeld(s, s.threads[t]);
  }

  lemma OthersLockedOut(s: State, t: nat, u: nat)
    requires Exclusive(s) && t < |s.threads| && s.threads[t].InCall?
    ensures u < |s.threads| && s.threads[u].InCall? ==> u == t
    ensures Apply(s, CloseNext(u)) == s
  {
  }

  lemma DistinctFields(s: State)
    requires Distinct(Held(s))
    ensures s.ckks.Some? ==> s.ckks != s.enc && s.ckks != s.dec
    ensures s.enc.Some? ==> s.enc != s.dec
  {
    var e, d := |K.Listed(s.enc)|, |K.Listed(s.dec)|;
    assert s.enc.Some? ==> Held(s)[0] == s.enc.value;
    assert s.dec.Some? ==> Held(s)[e] == s.dec.value;
    assert s.ckks.Some? ==> Held(s)[e + d] == s.ckks.value;
  }

  lemma LastHeld(s: State)
    requires Held(s) != []
    ensures Some(Held(s)[|Held(s)| - 1]) == if s.ckks.Some? then s.ckks else if s.dec.Some? then s.dec else s.enc
  {
  }

  /** A bundle that holds anything holds its context. */
  lemma ContextHeld(s: State, start: State)
    requires Conserved(s, Held(start)) && Original(s, start) && Distinct(Held(start)) && Held(s) != []
    ensures s.ckks == start.ckks && (s.ckks.Some? ==> s.ckks.value in s.live)
  {
    hide Distinct, K.Listed, Held;
    DistinctFields(start);
    LastHeld(s);
    assert Held(s)[|Held(s)| - 1] in s.live;
    assert Held(s)[|Held(s)| - 1] == Held(start)[|Held(start)| - 1];
    LastHeld(start);
  }

  /** At any moment at most one native call runs on the bundle, on an open handle that no close has released.
      While it runs, the context it shares with the other handles is held and open too, and no Close can take a
      step. */
  lemma OneCallOnAnOpenHandle(start: State, steps: seq<Step>, t: nat, u: nat)
    requires Opened(start)
    ensures var s := After(start, steps);
      t < |s.threads| && s.threads[t].InCall? ==>
        && s.threads[t].h in s.live && s.threads[t].h !in s.closed
        && (u < |s.threads| && s.threads[u].InCall? ==> u == t)
        && s.ckks == start.ckks && (s.ckks.Some? ==> s.ckks.value in s.live)
        && Apply(s, CloseNext(u)) == s
  {
    AlwaysSafe(start, steps);
    hide After, Apply, Held, Opened, Original, Exclusive;
    var s := After(start, steps);
    if t < |s.threads| && s.threads[t].InCall? {
      CalledIsHeld(s, t);
      OthersLockedOut(s, t, u);
      ContextHeld(s, start);
    }
  }

  /** `a`, if it is loaded, is among the closed handles when `b` is. */
  predicate ClosedBefore(closed: seq<Handle>, a: Option<Handle>, b: Option<Handle>) {
    a.Some? && b.Some? && b.value in closed ==>
      exists i, j :: 0 <= i < j < |closed| && closed[i] == a.value && closed[j] == b.value
  }

  lemma PrefixOrder(start: State, closed: seq<Handle>)
    requires Distinct(Held(start)) && closed <= Held(start)
    ensures ClosedBefore(closed, start.enc, start.dec)
    ensures ClosedBefore(closed, start.enc, start.ckks)
    ensures ClosedBefore(closed, start.dec, start.ckks)
  {
    var all, e, d := Held(start), |K.Listed(start.enc)|, |K.Listed(start.dec)|;
    assert start.enc.Some? ==> all[0] == start.enc.value;
    assert start.dec.Some? ==> all[e] == start.dec.value;
    assert start.ckks.Some? ==> all[e + d] == start.ckks.value;
    assert start.dec.Some? && start.dec.value in closed ==> e < |closed| && closed[e] == all[e];
    assert start.ckks.Some? && start.ckks.value in closed ==> e + d < |closed| && closed[e + d] == all[e + d];
    assert forall k :: 0 <= k < |closed| ==> closed[k] == all[k];
  }

  /** However often and from wherever Close is called, the native closes so far are a prefix of what the bundle was
      opened with, without repetition: a decryptor only after the encryptor, the context only after both; and
      everything not closed yet is still held. */
  lemma {:induction false} ClosedOnceInOrder(start: State, steps: seq<Step>)
    requires Opened(start)
    ensures var s := After(start, steps);
      && s.closed <= Held(start) && Distinct(s.closed)
      && s.closed + Held(s) == Held(start)
      && ClosedBefore(s.closed, start.enc, start.dec)
      && ClosedBefore(s.closed, start.enc, start.ckks)
      && ClosedBefore(s.closed, start.dec, start.ckks)
  {
    AlwaysSafe(start, steps);
    hide After, Held, ClosedBefore;
    var s := After(start, steps);
    PrefixOrder(start, s.closed);
    forall i, j | 0 <= i < j < |s.closed| ensures s.closed[i] != s.closed[j] {
      assert s.closed[i] == Held(start)[i] && s.closed[j] == Held(start)[j];
    }
  }

  lemma LastClose(s: State, t: nat)
    requires t < |s.threads| && s.threads[t] == ClosingCtx && PastFields(s, s.threads[t])
    ensures var now := Apply(s, CloseNext(t)); Held(now) == [] && now.threads[t] == Idle && now.lock == None
  {
  }

  /** The last step of a Close leaves nothing open: every handle the bundle ever held is closed. */
  lemma CloseCompletes(start: State, steps: seq<Step>, t: nat)
    requires Opened(start)
    requires var s := After(start, steps); t < |s.threads| && s.threads[t] == ClosingCtx
    ensures var s := Apply(After(start, steps), CloseNext(t));
      Held(s) == [] && s.closed == Held(start) && s.threads[t] == Idle && s.lock == None
  {
    hide After, Apply, Held, Distinct, Original;
    AlwaysSafe(start, steps);
    var s := After(start, steps);
    SafeStep(s, CloseNext(t), start);
    assert PastFields(s, s.threads[t]);
    LastClose(s, t);
    var closed := Apply(s, CloseNext(t)).closed;
    assert closed + [] == closed;
  }

  predicate AllGuarded(rs: seq<Reply>, n: nat)
    requires n <= |rs|
  {
    forall i :: n <= i < |rs| ==> rs[i] == Guarded
  }

  lemma EmptyStep(s: State, step: Step)
    requires Exclusive(s) && CallsHeld(s) && Held(s) == []
    ensures var now := Apply(s, step);
      && Held(now) == [] && now.closed == s.closed && now.live == s.live
      && (now.replies == s.replies || now.replies == s.replies + [Guarded])
  {
    assert |Held(s)| == |K.Listed(s.enc)| + |K.Listed(s.dec)| + |K.Listed(s.ckks)|;
    assert s.enc == None && s.dec == None && s.ckks == None;
  }

  lemma NoneHeldNoCall(s: State)
    requires CallsHeld(s) && Held(s) == []
    ensures forall t :: 0 <= t < |s.threads| ==> !s.threads[t].InCall?
  {
    assert |Held(s)| == |K.Listed(s.enc)| + |K.Listed(s.dec)| + |K.Listed(s.ckks)|;
    assert s.enc == None && s.dec == None;
  }

  /** Once a Close is through, whatever any thread does changes no handle any more: every operation that finishes
      later, even one that was already waiting for the lock, returns the guard error, none reaches the native
      library, and further Closes do nothing. */
  lemma {:induction false} AfterClose(start: State, before: seq<Step>, later: seq<Step>)
    requires Opened(start) && Held(After(start, before)) == []
    ensures var s, now := After(start, before), After(After(start, before), later);
      && Safe(now, start) && Held(now) == []
      && now.closed == s.closed && now.live == s.live
      && |s.replies| <= |now.replies| && now.replies[..|s.replies|] == s.replies
      && AllGuarded(now.replies, |s.replies|)
      && (forall t :: 0 <= t < |now.threads| ==> !now.threads[t].InCall?)
  {
    var s, now := After(start, before), After(After(start, before), later);
    hide Apply, ClosesInOrder, Conserved, Exclusive, Original, Distinct;
    if later == [] {
      AlwaysSafe(start, before);
    } else {
      var prev := After(s, later[..|later| - 1]);
      AfterClose(start, before, later[..|later| - 1]);
      SafeStep(prev, later[|later| - 1], start);
      EmptyStep(prev, later[|later| - 1]);
    }
    NoneHeldNoCall(now);
  }

  lemma StillHeldElsewhere(s: State, start: State, op: Op)
    requires Conserved(s, Held(start)) && Original(s, start) && Distinct(Held(start))
    requires HandleFor(start, op).Some? && HandleFor(s, op) == None && op != Close
    ensures HandleFor(start, op).value in s.closed
  {
    var h := HandleFor(start, op).value;
    DistinctFields(start);
    assert h in s.closed + Held(s);
    assert h in Held(s) <==> s.enc == Some(h) || s.dec == Some(h) || s.ckks == Some(h);
  }

  /** An operation that has the lock is turned away exactly when its handle was not loaded or a Close has already
      released it; otherwise it calls the very handle the bundle was opened with. */
  lemma GuardedExactlyWhenGone(start: State, steps: seq<Step>, t: nat, op: Op)
    requires Opened(start) && op != Close
    requires var s := After(start, steps); t < |s.threads| && s.threads[t] == Holding(op)
    ensures var s, h := After(start, steps), HandleFor(start, op);
      var now := Apply(s, Check(t));
      if h.None? || h.value in s.closed then now.threads[t] == Idle && now.replies == s.replies + [Guarded]
      else now.threads[t] == InCall(op, h.value) && now.replies == s.replies
  {
    AlwaysSafe(start, steps);
    var s, h := After(start, steps), HandleFor(start, op);
    hide After, Opened, Exclusive, CallsHeld;
    if h.Some? && HandleFor(s, op) == None {
      StillHeldElsewhere(s, start, op);
    } else if h.Some? {
      assert h.value in Held(s);
    }
  }

  /** An encryption that has the lock calls the encryptor the bundle was opened with, unless there was none or it is
      closed; a decryption does so with the decryptor. */
  lemma EachOperationItsHandle(start: State, steps: seq<Step>, t: nat)
    requires Opened(start) && t < |After(start, steps).threads|
    ensures var s := After(start, steps); var now := Apply(s, Check(t));
      && (s.threads[t] == Holding(Encrypt) ==>
            if start.enc.Some? && start.enc.value !in s.closed
            then now.threads[t] == InCall(Encrypt, start.enc.value) && now.replies == s.replies
            else now.threads[t] == Idle && now.replies == s.replies + [Guarded])
      && (s.threads[t] == Holding(Decrypt) ==>
            if start.dec.Some? && start.dec.value !in s.closed
            then now.threads[t] == InCall(Decrypt, start.dec.value) && now.replies == s.replies
            else now.threads[t] == Idle && now.replies == s.replies + [Guarded])
  {
    hide After, Apply, Opened;
    var s := After(start, steps);
    if s.threads[t] == Holding(Encrypt) {
      GuardedExactlyWhenGone(start, steps, t, Encrypt);
    } else if s.threads[t] == Holding(Decrypt) {
      GuardedExactlyWhenGone(start, steps, t, Decrypt);
    }
  }

  /** A call that ends adds exactly one reply, releases the lock and leaves the handles alone. */
  lemma FinishedCallServed(s: State, t: nat)
    requires t < |s.threads| && s.threads[t].InCall?
    ensures Apply(s, Finish(t))
         == s.(threads := s.threads[t := Idle], lock := None, replies := s.replies + [Served])
  {
  }

  lemma AfterSnoc(s: State, steps: seq<Step>, step: Step) returns (more: seq<Step>)
    ensures more == steps + [step] && After(s, more) == Apply(After(s, steps), step)
  {
    more := steps + [step];
    assert more[..|steps|] == steps;
  }

  lemma AfterNothing(s: State)
    ensures After(s, []) == s
  {
  }

  /** On an open bundle an operation that nothing interferes with gets through: it is served when its handle is
      loaded and turned away when it is not, adds one reply, and leaves the bundle as it was. */
  lemma OperationRuns(start: State, t: nat, op: Op) returns (steps: seq<Step>)
    requires Opened(start) && t < |start.threads| && op != Close
    ensures steps == [Start(t, op), Acquire(t), Check(t), Finish(t)]
    ensures After(start, steps)
         == start.(replies := [if (op == Encrypt && start.enc.Some?) || (op == Decrypt && start.dec.Some?)
                               then Served else Guarded])
  {
    hide After;
    AfterNothing(start);
    steps := AfterSnoc(start, [], Start(t, op));
    steps := AfterSnoc(start, steps, Acquire(t));
    assert After(start, steps).threads == start.threads[t := Holding(op)];
    steps := AfterSnoc(start, steps, Check(t));
    steps := AfterSnoc(start, steps, Finish(t));
    assert After(start, steps).threads == start.threads;
  }

  lemma FreshBundle(s: State)
    requires Opened(s)
    ensures s.lock == None && s.closed == [] && s.replies == []
    ensures forall t :: 0 <= t < |s.threads| ==> s.threads[t] == Idle
  {
  }

  /** A Close that nothing interferes with closes everything. */
  lemma CloseRuns(start: State, t: nat) returns (steps: seq<Step>)
    requires Opened(start) && t < |start.threads|
    ensures steps == [Start(t, Close), Acquire(t), CloseNext(t), CloseNext(t), CloseNext(t)]
    ensures var s := After(start, steps);
      s.enc == None && s.dec == None && s.ckks == None && s.closed == Held(start) && s.threads == start.threads
  {
    hide After, Held, Opened;
    AfterNothing(start);
    steps := AfterSnoc(start, [], Start(t, Close));
    FreshBundle(start);
    steps := AfterSnoc(start, steps, Acquire(t));
    assert After(start, steps).threads[t] == Holding(Close);
    steps := AfterSnoc(start, steps, CloseNext(t));
    steps := AfterSnoc(start, steps, CloseNext(t));
    assert After(start, steps).threads[t] == ClosingCtx;
    CloseCompletes(start, steps, t);
    steps := AfterSnoc(start, steps, CloseNext(t));
    assert After(start, steps).threads == start.threads;
  }
}
