/** Sending one insert request with bounded retries over a channel that may lose requests and acks. */
module Retry {
  import opened Wrappers
  import opened Vectors
  import opened Centroids

  /** A client-issued item id. */
  type Uuid = nat

  /** What the caller asks to insert; the vector stands for its ciphertexts. */
  datatype Item = Item(vec: Vec, metadata: string, tags: seq<string>)

  datatype InsertRequest = InsertRequest(id: Uuid, item: Item, clusterID: UInt32, version: string)

  /** What the client observes of one attempt. */
  datatype Answer = Ack | Mismatch | Unavailable | OtherError(code: int)

  datatype Outcome = Inserted | VersionMismatch | Failed(code: int) | GaveUp | Cancelled

  const MAX_ATTEMPTS: nat := 3

  // ---- the retry loop as an automaton ----

  datatype Loop = Backoff(attempt: nat) | Waiting(attempt: nat) | Finished(outcome: Outcome)

  /** Where the loop goes when attempt number `attempt` was answered. */
  function OnAnswer(attempt: nat, a: Answer): Loop {
    match a
    case Ack => Finished(Inserted)
    case Mismatch => Finished(VersionMismatch)
    case OtherError(code) => Finished(Failed(code))
    case Unavailable => if attempt + 1 < MAX_ATTEMPTS then Backoff(attempt + 1) else Finished(GaveUp)
  }

  /** The server's answers to the successive requests of a client; past the end it is unavailable.
      This is its answer to request number `k` after the first `base` ones. */
  function AnswerTo(script: seq<Answer>, base: nat, k: nat): Answer {
    if base + k < |script| then script[base + k] else Unavailable
  }

  /** The loop from attempt `attempt` on: `base` requests were sent before its first attempt, and the context
      ends before the attempts in `cancelled`. */
  function Walk(attempt: nat, script: seq<Answer>, base: nat, cancelled: set<nat>): Outcome
    requires attempt < MAX_ATTEMPTS
    decreases MAX_ATTEMPTS - attempt
  {
    if attempt > 0 && attempt in cancelled then Cancelled
    else
      match OnAnswer(attempt, AnswerTo(script, base, attempt))
      case Finished(o) => o
      case Backoff(next) => Walk(next, script, base, cancelled)
      case Waiting(_) => GaveUp
  }

  class InsertService {
    const script: seq<Answer>
    var sent: seq<InsertRequest>

    constructor (script: seq<Answer>)
      ensures this.script == script && sent == []
    {
      this.script := script;
      sent := [];
    }

    method Insert(req: InsertRequest) returns (a: Answer)
      modifies this
      ensures sent == old(sent) + [req]
      ensures a == AnswerTo(script, |old(sent)|, 0)
    {
      a := AnswerTo(script, |sent|, 0);
      sent := sent + [req];
    }
  }

  /** Sends `req` at most three times, always unchanged, and again only after UNAVAILABLE; `n` is how often. */
  method InsertWithRetry(svc: InsertService, req: InsertRequest, cancelled: set<nat>)
    returns (r: Outcome, ghost n: nat)
    modifies svc
    ensures 1 <= n <= 3 && svc.sent == old(svc.sent) + seq(n, _ => req)
    ensures forall k :: 0 <= k < n - 1 ==> AnswerTo(svc.script, |old(svc.sent)|, k) == Unavailable
    ensures forall k :: 0 < k < n ==> k !in cancelled
    ensures match AnswerTo(svc.script, |old(svc.sent)|, n - 1)
      case Ack => r == Inserted
      case Mismatch => r == VersionMismatch
      case OtherError(code) => r == Failed(code)
      case Unavailable => if n == 3 then r == GaveUp else n in cancelled && r == Cancelled
    ensures r == Walk(0, svc.script, |old(svc.sent)|, cancelled)
  {
    ghost var base := |svc.sent|;
    n := 0;
    for attempt := 0 to MAX_ATTEMPTS
      invariant n == attempt
      invariant svc.sent == old(svc.sent) + seq(n, _ => req)
      invariant forall k :: 0 <= k < n ==> AnswerTo(svc.script, base, k) == Unavailable
      invariant forall k :: 0 < k < n ==> k !in cancelled
      invariant Walk(0, svc.script, base, cancelled)
             == if attempt < MAX_ATTEMPTS then Walk(attempt, svc.script, base, cancelled) else GaveUp
    {
      if attempt > 0 && attempt in cancelled {
        return Cancelled, n;
      }
      var a := svc.Insert(req);
      n := n + 1;
      match a {
        case Ack => return Inserted, n;
        case Mismatch => return VersionMismatch, n;
        case OtherError(code) => return Failed(code), n;
        case Unavailable =>
      }
    }
    return GaveUp, n;
  }
}
