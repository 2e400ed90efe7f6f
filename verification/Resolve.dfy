/** One GetMetadata round trip: splitting a window of candidates by tier and zipping the reply back. */
module Resolve {
  import opened Wrappers
  import opened Ranking
  import opened Matching

  datatype CellRow = CellRow(cellID: UInt32, row: nat)
  datatype Request = Request(rmpRows: seq<CellRow>, mmRows: seq<CellRow>, scope: seq<string>)
  datatype Reply = Reply(rmpEntries: seq<Entry>, mmEntries: seq<Entry>)

  /** What the server replies to the successive GetMetadata calls of a client; past the end it replies
      with no entries. */
  type Script = seq<Result<Reply, string>>

  function ReplyTo(script: Script, k: nat): Result<Reply, string> {
    if k < |script| then script[k] else Ok(Reply([], []))
  }

  /** The GetMetadata endpoint as the client sees it, with the requests made so far. */
  class MetadataService {
    const script: Script
    var log: seq<Request>

    constructor (script: Script)
      ensures this.script == script && log == []
    {
      this.script := script;
      log := [];
    }

    method GetMetadata(req: Request) returns (r: Result<Reply, string>)
      modifies this
      ensures log == old(log) + [req]
      ensures r == ReplyTo(script, |old(log)|)
    {
      r := ReplyTo(script, |log|);
      log := log + [req];
    }
  }

  /** The rows of one tier among the first `n` positions, in order. */
  function TierRows(ps: seq<Cand>, flat: bool, n: nat): seq<CellRow>
    requires n <= |ps|
  {
    if n == 0 then []
    else
      TierRows(ps, flat, n - 1) +
      (if ps[n - 1].flat == flat then [CellRow(ps[n - 1].cellID, ps[n - 1].row)] else [])
  }

  function RequestFor(ps: seq<Cand>, scope: seq<string>): Request {
    Request(TierRows(ps, true, |ps|), TierRows(ps, false, |ps|), scope)
  }

  /** How many positions of the same tier precede position `i`. */
  function Rank(ps: seq<Cand>, i: nat): nat
    requires i < |ps|
  {
    |TierRows(ps, ps[i].flat, i)|
  }

  function TierEntries(reply: Reply, flat: bool): seq<Entry> {
    if flat then reply.rmpEntries else reply.mmEntries
  }

  /** The entry that belongs to position `i`: the reply's entry of the same tier and rank, blank when
      the reply is too short. */
  function EntryAt(ps: seq<Cand>, reply: Reply, i: nat): Entry
    requires i < |ps|
  {
    var entries := TierEntries(reply, ps[i].flat);
    if Rank(ps, i) < |entries| then entries[Rank(ps, i)] else BLANK
  }

  method ResolvePositions(svc: MetadataService, ps: seq<Cand>, scope: seq<string>)
    returns (r: Result<(seq<Id>, seq<string>), string>)
    modifies svc
    ensures svc.log == old(svc.log) + [RequestFor(ps, scope)]
    ensures svc.log[|old(svc.log)|] == Request(TierRows(ps, true, |ps|), TierRows(ps, false, |ps|), scope)
    ensures var reply := ReplyTo(svc.script, |old(svc.log)|);
      match reply
      case Err(e) => r == Err(e)
      case Ok(rep) =>
        && r.Ok? && |r.value.0| == |r.value.1| == |ps|
        && forall i :: 0 <= i < |ps| ==> Entry(r.value.0[i], r.value.1[i]) == EntryAt(ps, rep, i)
  {
    var rmpRows, mmRows := [], [];
    for i := 0 to |ps|
      invariant rmpRows == TierRows(ps, true, i) && mmRows == TierRows(ps, false, i)
    {
      var cr := CellRow(ps[i].cellID, ps[i].row);
      if ps[i].flat {
        rmpRows := rmpRows + [cr];
      } else {
        mmRows := mmRows + [cr];
      }
    }
    var reply := svc.GetMetadata(Request(rmpRows, mmRows, scope));
    if reply.Err? {
      return Err(reply.error);
    }
    var rmpEntries, mmEntries := reply.value.rmpEntries, reply.value.mmEntries;
    var ids := seq(|ps|, _ => NO_ID);
    var metas := seq(|ps|, _ => "");
    var ri, mi := 0, 0;
    for i := 0 to |ps|
      invariant |ids| == |metas| == |ps|
      invariant ri == |TierRows(ps, true, i)| && mi == |TierRows(ps, false, i)|
      invariant forall k :: 0 <= k < i ==> Entry(ids[k], metas[k]) == EntryAt(ps, reply.value, k)
      invariant forall k :: i <= k < |ps| ==> ids[k] == NO_ID && metas[k] == ""
    {
      var ent := None;
      if ps[i].flat {
        if ri < |rmpEntries| {
          ent := Some(rmpEntries[ri]);
        }
        ri := ri + 1;
      } else {
        if mi < |mmEntries| {
          ent := Some(mmEntries[mi]);
        }
        mi := mi + 1;
      }
      if ent.Some? {
        ids := ids[i := ent.value.id];
        metas := metas[i := ent.value.metadata];
      }
    }
    return Ok((ids, metas));
  }

  // ---- alignment ----

  /** The server's row-to-item maps of both tiers; a position without an item is unresolvable. */
  type Resolver = map<(bool, CellRow), Entry>

  function Lookup(res: Resolver, flat: bool, row: CellRow): Entry {
    if (flat, row) in res then res[(flat, row)] else BLANK
  }

  function AnswerOf(res: Resolver, c: Cand): Entry {
    Lookup(res, c.flat, CellRow(c.cellID, c.row))
  }

  function AnswersOf(res: Resolver, cs: seq<Cand>): seq<Entry> {
    seq(|cs|, i requires 0 <= i < |cs| => AnswerOf(res, cs[i]))
  }

  /** The reply that answers every row of a request in order. */
  function InOrder(res: Resolver, req: Request): Reply {
    Reply(seq(|req.rmpRows|, i requires 0 <= i < |req.rmpRows| => Lookup(res, true, req.rmpRows[i])),
          seq(|req.mmRows|, i requires 0 <= i < |req.mmRows| => Lookup(res, false, req.mmRows[i])))
  }

  /** The reply cut to at most `rmp` and `mm` entries. */
  function Shortened(reply: Reply, rmp: nat, mm: nat): Reply {
    Reply(if rmp < |reply.rmpEntries| then reply.rmpEntries[..rmp] else reply.rmpEntries,
          if mm < |reply.mmEntries| then reply.mmEntries[..mm] else reply.mmEntries)
  }

  /** The row sent for position `i` is found in its tier's list at its rank. */
  lemma {:induction false} RowAtRank(ps: seq<Cand>, i: nat, n: nat)
    requires i < n <= |ps|
    ensures Rank(ps, i) < |TierRows(ps, ps[i].flat, n)|
    ensures TierRows(ps, ps[i].flat, n)[Rank(ps, i)] == CellRow(ps[i].cellID, ps[i].row)
  {
    if i < n - 1 {
      RowAtRank(ps, i, n - 1);
    }
  }

  /** Positions of one tier have distinct ranks, so no two share an entry of the reply. */
  lemma RanksDistinct(ps: seq<Cand>, i: nat, j: nat)
    requires i < j < |ps| && ps[i].flat == ps[j].flat
    ensures Rank(ps, i) < Rank(ps, j)
  {
    RowAtRank(ps, i, j);
  }

  /** When the server answers each tier's rows in order but possibly stops short, a position gets
      exactly its own entry if its rank is below the reply length, and stays blank otherwise. */
  lemma ZipAlignment(res: Resolver, ps: seq<Cand>, scope: seq<string>, rmp: nat, mm: nat, i: nat)
    requires i < |ps|
    ensures EntryAt(ps, Shortened(InOrder(res, RequestFor(ps, scope)), rmp, mm), i)
         == if Rank(ps, i) < (if ps[i].flat then rmp else mm) then AnswerOf(res, ps[i]) else BLANK
    ensures EntryAt(ps, InOrder(res, RequestFor(ps, scope)), i) == AnswerOf(res, ps[i])
  {
    RowAtRank(ps, i, |ps|);
  }
}
