/** The client's search: collect live candidates of both tiers, rank them, and resolve them window by
    window until topK matches are found. */
module Search {
  import opened Wrappers
  import opened Bitmap
  import opened Ranking
  import opened Matching
  import opened Resolve

  // ---- Go's 64-bit int ----

  const TWO_63: int := 0x8000_0000_0000_0000

  type Int64 = x: int | -TWO_63 <= x < TWO_63

  function Wrap64(x: int): Int64 {
    (x + TWO_63) % (2 * TWO_63) - TWO_63
  }

  /** How many of `n` candidates one round trip resolves: topK * 2 in wrapping arithmetic, or all. */
  function BatchSize(n: nat, topK: Int64): nat {
    if topK > 0 then
      var w := Wrap64(topK * 2);
      if w > 0 && w < n then w else n
    else n
  }

  /** The wrapped product never shows: the window is min(2 * topK, n) in unbounded arithmetic. */
  lemma BatchSizeExact(n: nat, topK: Int64)
    requires n < TWO_63
    ensures topK > 0 ==> BatchSize(n, topK) == if 2 * topK < n then 2 * topK else n
    ensures topK <= 0 ==> BatchSize(n, topK) == n
    ensures n > 0 ==> 1 <= BatchSize(n, topK) <= n
  {
    if topK > 0 && 2 * topK >= TWO_63 {
      assert Wrap64(topK * 2) == 2 * topK - 2 * TWO_63;
    }
  }

  // ---- the windowed run, as a function of the server's replies ----

  /** One resolve run: the ranked candidates, the request parameters, and the server's replies;
      `batch` is the window size and `base` is how many requests the server saw before. */
  datatype Job = Job(cands: seq<Cand>, topK: Int64, batch: nat, scope: seq<string>, script: Script, base: nat) {

    /** How many candidates the first `c` windows cover. */
    function Asked(c: nat): (n: nat)
      ensures n <= |cands|
    {
      if c == 0 then 0
      else if Asked(c - 1) + batch < |cands| then Asked(c - 1) + batch else |cands|
    }

    function Window(k: nat): seq<Cand> {
      cands[Asked(k)..Asked(k + 1)]
    }

    function Req(k: nat): Request {
      RequestFor(Window(k), scope)
    }

    function Rep(k: nat): Result<Reply, string> {
      ReplyTo(script, base + k)
    }

    /** The entries zipped to the positions of window `k`. */
    function WindowAnswers(k: nat): seq<Entry> {
      var rep := Rep(k);
      var ps := Window(k);
      seq(|ps|, i requires 0 <= i < |ps| => if rep.Ok? then EntryAt(ps, rep.value, i) else BLANK)
    }

    /** The entries zipped to the candidates of the first `c` windows. */
    function Answers(c: nat): (ans: seq<Entry>)
      ensures |ans| == Asked(c)
    {
      if c == 0 then [] else Answers(c - 1) + WindowAnswers(c - 1)
    }

    /** The matches the first `c` windows give, before the cut at topK. */
    function Matches(c: nat): seq<Match> {
      Dedup(cands, Answers(c), Asked(c))
    }

    predicate Enough(c: nat) {
      Asked(c) == |cands| || (topK > 0 && |Matches(c)| >= topK)
    }

    /** The first `c` requests. */
    function Reqs(c: nat): (reqs: seq<Request>)
      ensures |reqs| == c
    {
      if c == 0 then [] else Reqs(c - 1) + [Req(c - 1)]
    }

    predicate Failed(c: nat) {
      c > 0 && Rep(c - 1).Err?
    }

    /** No count below `c` ends the run. */
    ghost predicate Goes(c: nat) {
      c > 0 ==> Goes(c - 1) && !Enough(c - 1) && !Failed(c - 1)
    }

    /** `c` is the number of round trips: the first count that is enough, or that ends in an error. */
    ghost predicate Stops(c: nat) {
      Goes(c) && (Enough(c) || Failed(c))
    }

    function Outcome(c: nat): Result<seq<Match>, string> {
      if c > 0 && Rep(c - 1).Err? then Err(Rep(c - 1).error) else Ok(FirstK(Matches(c), topK))
    }
  }

  lemma {:induction false} GoesBelow(job: Job, c: nat, k: nat)
    requires job.Goes(c) && k < c
    ensures !job.Enough(k) && !job.Failed(k)
  {
    if k < c - 1 {
      GoesBelow(job, c - 1, k);
    }
  }

  lemma StopsUnique(job: Job, c: nat, c': nat)
    requires job.Stops(c) && job.Stops(c')
    ensures c == c'
  {
    if c < c' {
      GoesBelow(job, c', c);
    } else if c' < c {
      GoesBelow(job, c, c');
    }
  }

  /** The matching part of one window, whose positions start at `cursor` and resolved to `ids` and `metas`:
      appends the new matches and stops early once topK is reached. `ans` are the entries up to the window's
      end, and `done` is how many of them were looked at. */
  method AddWindow(cands: seq<Cand>, ghost ans: seq<Entry>, cursor: nat, ids: seq<Id>, metas: seq<string>,
                   out0: seq<Match>, seen0: set<Id>, topK: Int64)
    returns (out: seq<Match>, seen: set<Id>, full: bool, ghost done: nat)
    requires |ids| == |metas| && cursor + |ids| == |ans| <= |cands|
    requires forall j :: 0 <= j < |ids| ==> ans[cursor + j] == Entry(ids[j], metas[j])
    requires out0 == Dedup(cands, ans, cursor) && seen0 == IdSet(out0) && (topK > 0 ==> |out0| < topK)
    ensures done <= |ans| && out == Dedup(cands, ans, done) && seen == IdSet(out)
    ensures if full then topK > 0 && |out| == topK else done == |ans| && (topK > 0 ==> |out| < topK)
  {
    out, seen, full := out0, seen0, false;
    var j := 0;
    while j < |ids| && !full
      invariant j <= |ids|
      invariant out == Dedup(cands, ans, cursor + j) && seen == IdSet(out)
      invariant topK > 0 ==> if full then |out| == topK else |out| < topK
      invariant full ==> topK > 0
      decreases |ids| - j, !full
    {
      var id := ids[j];
      if id != NO_ID && id !in seen {
        seen := seen + {id};
        var pos := cands[cursor + j];
        var m := Match(id, metas[j], if pos.flat then FLAT_CLUSTER_ID else ToInt32(pos.cellID), pos.row, pos.score);
        IdSetAppend(out, m);
        out := out + [m];
        full := topK > 0 && |out| >= topK;
      }
      j := j + 1;
    }
    done := cursor + j;
  }

  lemma CutPrefix(part: seq<Match>, all: seq<Match>, topK: Int64)
    requires part <= all && topK > 0 && |part| == topK
    ensures FirstK(all, topK) == part
  {
  }

  /** One round trip: resolve window `c` and add its matches. */
  method RunWindow(svc: MetadataService, job: Job, ghost c: nat, cursor: nat, hi: nat,
                   out0: seq<Match>, seen0: set<Id>)
    returns (r: Result<bool, string>, out: seq<Match>, seen: set<Id>)
    requires job.script == svc.script && job.base + c == |svc.log|
    requires cursor == job.Asked(c) && hi == job.Asked(c + 1) && cursor <= hi
    requires out0 == job.Matches(c) && (job.topK > 0 ==> |out0| < job.topK)
    requires seen0 == IdSet(out0)
    modifies svc
    ensures svc.log == old(svc.log) + [job.Req(c)]
    ensures match r
      case Err(e) => job.Rep(c) == Err(e)
      case Ok(full) =>
        && job.Rep(c).Ok?
        && if full then job.topK > 0 && |out| == job.topK && out <= job.Matches(c + 1)
           else out == job.Matches(c + 1) && (job.topK > 0 ==> |out| < job.topK) && seen == IdSet(out)
  {
    out, seen := out0, seen0;
    var res := ResolvePositions(svc, job.cands[cursor..hi], job.scope);
    if res.Err? {
      return Err(res.error), out, seen;
    }
    var (ids, metas) := res.value;
    DedupLocal(job.cands, job.Answers(c), job.cands, job.Answers(c + 1), cursor);
    var full;
    ghost var done;
    out, seen, full, done := AddWindow(job.cands, job.Answers(c + 1), cursor, ids, metas, out, seen, job.topK);
    DedupPrefix(job.cands, job.Answers(c + 1), done, hi);
    return Ok(full), out, seen;
  }

  lemma GoesNext(job: Job, c: nat)
    requires job.Goes(c) && !job.Failed(c) && !job.Enough(c)
    ensures job.Goes(c + 1)
  {
  }

  lemma LogNext(before: seq<Request>, job: Job, c: nat)
    ensures before + job.Reqs(c) + [job.Req(c)] == before + job.Reqs(c + 1)
  {
  }

  lemma NoMatchesYet(job: Job)
    ensures job.Matches(0) == [] && IdSet([]) == {}
  {
  }

  /** The window loop of the search, for any window size. */
  method ResolveInWindows(svc: MetadataService, job: Job)
    returns (r: Result<seq<Match>, string>, ghost calls: nat)
    requires job.script == svc.script && job.base == |svc.log|
    requires job.cands == [] || job.batch >= 1
    modifies svc
    ensures job.Stops(calls) && r == job.Outcome(calls)
    ensures svc.log == old(svc.log) + job.Reqs(calls)
  {
    hide Dedup, RequestFor, Job.Window;
    NoMatchesYet(job);
    var out: seq<Match> := [];
    var seen: set<Id> := {};
    var cursor := 0;
    calls := 0;
    while cursor < |job.cands|
      invariant svc.log == old(svc.log) + job.Reqs(calls)
      invariant job.Asked(calls) == if cursor < |job.cands| then cursor else |job.cands|
      invariant out == job.Matches(calls) && seen == IdSet(out)
      invariant job.Goes(calls)
      invariant !job.Failed(calls) && (job.topK > 0 ==> |out| < job.topK)
      decreases |job.cands| - cursor
    {
      var hi := cursor + job.batch;
      if hi > |job.cands| {
        hi := |job.cands|;
      }
      var res;
      GoesNext(job, calls);
      LogNext(old(svc.log), job, calls);
      res, out, seen := RunWindow(svc, job, calls, cursor, hi, out, seen);
      calls := calls + 1;
      if res.Err? {
        return Err(res.error), calls;
      }
      if res.value {
        CutPrefix(out, job.Matches(calls), job.topK);
        return Ok(out), calls;
      }
      cursor := cursor + job.batch;
    }
    return Ok(out), calls;
  }

  // ---- the whole search ----

  /** One cell of a search reply; `blob` stands for what the tier's key decrypts it to. */
  datatype CellResult = CellResult(cellID: UInt32, blob: Result<seq<real>, string>, dead: seq<bv8>)
  datatype Response = Response(rmp: seq<CellResult>, mm: seq<CellResult>)

  datatype SearchError =
    | SearchFailed(msg: string)
    | DecryptFailed(flat: bool, cellID: UInt32, msg: string)
    | MetadataFailed(msg: string)

  /** The live candidates of the first `n` cells of one tier, or the first decryption error. */
  function TierCands(flat: bool, cells: seq<CellResult>, n: nat): Result<seq<Cand>, SearchError>
    requires n <= |cells|
  {
    if n == 0 then Ok([])
    else
      var before :- TierCands(flat, cells, n - 1);
      var cell := cells[n - 1];
      match cell.blob
      case Err(e) => Err(DecryptFailed(flat, cell.cellID, e))
      case Ok(scores) => Ok(before + LiveCands(flat, cell.cellID, scores, cell.dead, |scores|))
  }

  /** The candidates of a response: the flat tier's, then the clusters'. */
  function AllCands(resp: Response): Result<seq<Cand>, SearchError> {
    var flat :- TierCands(true, resp.rmp, |resp.rmp|);
    var mm :- TierCands(false, resp.mm, |resp.mm|);
    Ok(flat + mm)
  }

  lemma {:induction false} TierErr(flat: bool, cells: seq<CellResult>, m: nat, n: nat)
    requires m <= n <= |cells|
    requires TierCands(flat, cells, m).Err?
    ensures TierCands(flat, cells, n) == TierCands(flat, cells, m)
  {
    if m < n {
      TierErr(flat, cells, m, n - 1);
    }
  }

  method CollectTier(cands0: seq<Cand>, flat: bool, cells: seq<CellResult>)
    returns (r: Result<seq<Cand>, SearchError>)
    ensures match TierCands(flat, cells, |cells|)
      case Err(e) => r == Err(e)
      case Ok(cs) => r == Ok(cands0 + cs)
  {
    hide LiveCands;
    var cands := cands0;
    ghost var found := [];
    for i := 0 to |cells|
      invariant TierCands(flat, cells, i) == Ok(found)
      invariant cands == cands0 + found
    {
      var scores := cells[i].blob;
      if scores.Err? {
        TierErr(flat, cells, i + 1, |cells|);
        return Err(DecryptFailed(flat, cells[i].cellID, scores.error));
      }
      cands := AppendCands(cands, flat, cells[i].cellID, scores.value, cells[i].dead);
      found := found + LiveCands(flat, cells[i].cellID, scores.value, cells[i].dead, |scores.value|);
    }
    return Ok(cands);
  }

  /** The resolve run that a search over `cands` performs. */
  function JobFor(cands: seq<Cand>, topK: Int64, scope: seq<string>, script: Script, base: nat): Job {
    Job(SortStable(cands), topK, BatchSize(|cands|, topK), scope, script, base)
  }

  method Collect(resp: Response) returns (r: Result<seq<Cand>, SearchError>)
    ensures r == AllCands(resp)
  {
    ghost var flat := TierCands(true, resp.rmp, |resp.rmp|);
    assert flat.Ok? ==> [] + flat.value == flat.value;
    var cands :- CollectTier([], true, resp.rmp);
    r := CollectTier(cands, false, resp.mm);
  }

  /** What a search that found `cands` returns and asks: the outcome and the requests of its resolve run. */
  ghost predicate ResolvesTo(job: Job, calls: nat, r: Result<seq<Match>, SearchError>, asked: seq<Request>) {
    && job.Stops(calls)
    && asked == job.Reqs(calls)
    && match job.Outcome(calls)
       case Err(e) => r == Err(MetadataFailed(e))
       case Ok(ms) => r == Ok(ms)
  }

  lemma {:induction false} ReqsScoped(job: Job, c: nat)
    ensures forall q :: q in job.Reqs(c) ==> q.scope == job.scope
  {
    if c > 0 {
      ReqsScoped(job, c - 1);
    }
  }

  /** The ranking and the choice of the window size. */
  method RankAndResolve(svc: MetadataService, cands: seq<Cand>, topK: Int64, scope: seq<string>)
    returns (r: Result<seq<Match>, SearchError>, ghost calls: nat, ghost asked: seq<Request>)
    modifies svc
    ensures ResolvesTo(JobFor(cands, topK, scope, svc.script, |old(svc.log)|), calls, r, asked)
    ensures svc.log == old(svc.log) + asked
    ensures forall q :: q in asked ==> q.scope == scope
  {
    SortLength(cands);
    var ranked := SortStable(cands);
    var batch := |ranked|;
    if topK > 0 {
      var w := Wrap64(topK * 2);
      if w > 0 && w < |ranked| {
        batch := w;
      }
    }
    var job := Job(ranked, topK, batch, scope, svc.script, |svc.log|);
    var res;
    res, calls := ResolveInWindows(svc, job);
    asked := job.Reqs(calls);
    ReqsScoped(job, calls);
    match res
    case Err(e) => r := Err(MetadataFailed(e));
    case Ok(ms) => r := Ok(ms);
  }

  /** The client's search, from the server's Search reply on. Every request for metadata carries the scope of the
      search. */
  method SearchAndResolve(svc: MetadataService, search: Result<Response, string>, scope: seq<string>, topK: Int64)
    returns (r: Result<seq<Match>, SearchError>, ghost calls: nat, ghost asked: seq<Request>)
    modifies svc
    ensures svc.log == old(svc.log) + asked
    ensures forall q :: q in asked ==> q.scope == scope
    ensures match search
      case Err(e) => r == Err(SearchFailed(e)) && asked == []
      case Ok(resp) =>
        match AllCands(resp)
        case Err(e) => r == Err(e) && asked == []
        case Ok(cands) => ResolvesTo(JobFor(cands, topK, scope, svc.script, |old(svc.log)|), calls, r, asked)
  {
    calls, asked := 0, [];
    if search.Err? {
      return Err(SearchFailed(search.error)), calls, asked;
    }
    var cands := Collect(search.value);
    if cands.Err? {
      return Err(cands.error), calls, asked;
    }
    r, calls, asked := RankAndResolve(svc, cands.value, topK, scope);
  }
}
