/** What the windowed search guarantees: safety under arbitrary replies, refinement of the simple
    resolve-everything search, the round-trip bound, and the order of the results. */
module SearchTheorems {
  import opened Wrappers
  import opened Bitmap
  import opened Ranking
  import opened Matching
  import opened Resolve
  import opened Search

  // ---- every run ends ----

  /** Some number of round trips, at most one per candidate, ends the run. */
  lemma {:induction false} RunEnds(job: Job, c: nat) returns (end: nat)
    requires job.cands == [] || job.batch >= 1
    requires job.Goes(c) && c <= job.Asked(c)
    ensures job.Stops(end) && end <= |job.cands|
    decreases |job.cands| - job.Asked(c)
  {
    if job.Enough(c) || job.Failed(c) {
      end := c;
    } else {
      end := RunEnds(job, c + 1);
    }
  }

  // ---- safety under arbitrary replies ----

  /** Whatever the server replies in each window: ids are non-empty and distinct, scores do not increase,
      at most topK matches are returned, and every match is an asked candidate with the entry zipped to it. */
  lemma SafeUnderAnyReplies(job: Job, c: nat)
    requires job.Stops(c) && job.Outcome(c).Ok? && Ranked(job.cands)
    ensures var ms := job.Outcome(c).value;
      && (forall k :: 0 <= k < |ms| ==> ms[k].id != Id(""))
      && (forall j, k :: 0 <= j < k < |ms| ==> ms[j].id != ms[k].id && ms[j].score >= ms[k].score)
      && (job.topK > 0 ==> |ms| <= job.topK)
      && (forall k :: 0 <= k < |ms| ==>
            exists i :: 0 <= i < job.Asked(c) && ms[k] == MakeMatch(job.cands[i], job.Answers(c)[i]))
  {
    var ans, n := job.Answers(c), job.Asked(c);
    DedupDistinct(job.cands, ans, n);
    DedupRanked(job.cands, ans, n);
    DedupIsFirstOccurrences(job.cands, ans, n);
    var idx := Firsts(ans, n);
    forall k | 0 <= k < |job.Outcome(c).value|
      ensures exists i :: 0 <= i < n && job.Outcome(c).value[k] == MakeMatch(job.cands[i], ans[i])
    {
      assert job.Outcome(c).value[k] == MakeMatch(job.cands[idx[k]], ans[idx[k]]);
    }
  }

  ghost predicate InCell(cell: CellResult, c: Cand) {
    && c.cellID == cell.cellID
    && cell.blob.Ok?
    && c.row < |cell.blob.value|
    && !IsDead(cell.dead, c.row)
    && c.score == cell.blob.value[c.row]
  }

  /** `c` is a live, scored row of the response, in its own tier and cell. */
  ghost predicate LiveRowOf(cells: seq<CellResult>, n: nat, c: Cand)
    requires n <= |cells|
  {
    exists k :: 0 <= k < n && InCell(cells[k], c)
  }

  lemma {:induction false} TierCandsExact(flat: bool, cells: seq<CellResult>, n: nat, c: Cand)
    requires n <= |cells| && TierCands(flat, cells, n).Ok?
    ensures c in TierCands(flat, cells, n).value <==> c.flat == flat && LiveRowOf(cells, n, c)
  {
    hide LiveCands, IsDead;
    if n > 0 {
      TierCandsExact(flat, cells, n - 1, c);
      var cell := cells[n - 1];
      var scores := cell.blob.value;
      LiveCandsExact(flat, cell.cellID, scores, cell.dead, |scores|);
      assert c in LiveCands(flat, cell.cellID, scores, cell.dead, |scores|) <==> c.flat == flat && InCell(cell, c);
    }
  }

  /** The ranked candidates of a search are exactly the live scored rows of both tiers. */
  lemma RankedAreLiveRows(resp: Response, c: Cand)
    requires AllCands(resp).Ok?
    ensures c in SortStable(AllCands(resp).value)
       <==> if c.flat then LiveRowOf(resp.rmp, |resp.rmp|, c) else LiveRowOf(resp.mm, |resp.mm|, c)
  {
    var cands := AllCands(resp).value;
    TierCandsExact(true, resp.rmp, |resp.rmp|, c);
    TierCandsExact(false, resp.mm, |resp.mm|, c);
    SortStableFacts(cands);
    assert c in SortStable(cands) <==> c in multiset(SortStable(cands));
    assert c in cands <==> c in multiset(cands);
  }

  /** The match reports this row and this entry, and its tier and cell as far as 32 signed bits can tell them. */
  predicate Shows(m: Match, c: Cand, e: Entry) {
    && m.id == e.id && m.metadata == e.metadata && m.row == c.row && m.score == c.score
    && (c.flat ==> m.clusterID == -1)
    && (!c.flat && c.cellID < 0x8000_0000 ==> m.clusterID == c.cellID)
  }

  lemma MatchShows(c: Cand, e: Entry)
    ensures Shows(MakeMatch(c, e), c, e)
  {
  }

  lemma JobRanked(cands: seq<Cand>, topK: Int64, scope: seq<string>, script: Script, base: nat)
    ensures JobFor(cands, topK, scope, script, base).cands == SortStable(cands)
    ensures Ranked(SortStable(cands))
  {
    SortStableFacts(cands);
  }

  /** The window in which a candidate was asked, and its place there. */
  lemma {:induction false} AskedIn(job: Job, c: nat, at: nat) returns (window: nat, i: nat)
    requires at < job.Asked(c) && job.Goes(c) && !job.Failed(c)
    ensures window < c && i < |job.Window(window)| && job.Window(window)[i] == job.cands[at]
    ensures job.Rep(window).Ok? && job.Answers(c)[at] == EntryAt(job.Window(window), job.Rep(window).value, i)
  {
    if at < job.Asked(c - 1) {
      window, i := AskedIn(job, c - 1, at);
    } else {
      window, i := c - 1, at - job.Asked(c - 1);
    }
  }

  /** Whatever the server replies to its requests, each match of a search is a live scored row of the Search
      response with that row's own score, and carries the id and metadata of the reply entry zipped to that row. */
  lemma MatchesAreLiveRows(resp: Response, topK: Int64, scope: seq<string>, script: Script, base: nat,
                           calls: nat, k: nat)
    returns (c: Cand, window: nat, i: nat)
    requires AllCands(resp).Ok?
    requires var job := JobFor(AllCands(resp).value, topK, scope, script, base);
      job.Stops(calls) && job.Outcome(calls).Ok? && k < |job.Outcome(calls).value|
    ensures if c.flat then LiveRowOf(resp.rmp, |resp.rmp|, c) else LiveRowOf(resp.mm, |resp.mm|, c)
    ensures var job := JobFor(AllCands(resp).value, topK, scope, script, base);
      && window < calls && i < |job.Window(window)| && job.Window(window)[i] == c && job.Rep(window).Ok?
      && Shows(job.Outcome(calls).value[k], c, EntryAt(job.Window(window), job.Rep(window).value, i))
  {
    hide AllCands, SortStable, JobFor, Dedup, MakeMatch, LiveRowOf, Shows;
    var job := JobFor(AllCands(resp).value, topK, scope, script, base);
    JobRanked(AllCands(resp).value, topK, scope, script, base);
    SafeUnderAnyReplies(job, calls);
    var at: nat :|
      at < job.Asked(calls) && job.Outcome(calls).value[k] == MakeMatch(job.cands[at], job.Answers(calls)[at]);
    c := job.cands[at];
    RankedAreLiveRows(resp, c);
    window, i := AskedIn(job, calls, at);
    MatchShows(c, job.Answers(calls)[at]);
  }

  lemma AllCandsFlatFirst(resp: Response)
    requires AllCands(resp).Ok?
    ensures FlatFirst(AllCands(resp).value)
  {
    var flat := TierCands(true, resp.rmp, |resp.rmp|).value;
    var mm := TierCands(false, resp.mm, |resp.mm|).value;
    forall c | c in flat
      ensures c.flat
    {
      TierCandsExact(true, resp.rmp, |resp.rmp|, c);
    }
    forall c | c in mm
      ensures !c.flat
    {
      TierCandsExact(false, resp.mm, |resp.mm|, c);
    }
  }

  // ---- errors ----

  lemma {:induction false} TierDecrypts(flat: bool, cells: seq<CellResult>, n: nat)
    requires n <= |cells|
    ensures TierCands(flat, cells, n).Ok? <==> forall i :: 0 <= i < n ==> cells[i].blob.Ok?
  {
    if n > 0 {
      TierDecrypts(flat, cells, n - 1);
    }
  }

  lemma FirstUndecryptable(flat: bool, cells: seq<CellResult>, i: nat)
    requires i < |cells| && cells[i].blob.Err? && forall j :: 0 <= j < i ==> cells[j].blob.Ok?
    ensures TierCands(flat, cells, |cells|) == Err(DecryptFailed(flat, cells[i].cellID, cells[i].blob.error))
  {
    TierDecrypts(flat, cells, i);
    TierErr(flat, cells, i + 1, |cells|);
  }

  /** A search gets past decryption exactly when every cell of both tiers decrypts. */
  lemma EveryCellDecrypts(resp: Response)
    ensures AllCands(resp).Ok? <==>
      && (forall i :: 0 <= i < |resp.rmp| ==> resp.rmp[i].blob.Ok?)
      && (forall i :: 0 <= i < |resp.mm| ==> resp.mm[i].blob.Ok?)
  {
    TierDecrypts(true, resp.rmp, |resp.rmp|);
    TierDecrypts(false, resp.mm, |resp.mm|);
  }

  /** Otherwise it reports the first cell that does not, the flat tier's cells before the clusters', with the tier
      and the cell id. */
  lemma UndecryptableCellReported(resp: Response, flat: bool, i: nat)
    requires var cells := if flat then resp.rmp else resp.mm;
      i < |cells| && cells[i].blob.Err? && forall j :: 0 <= j < i ==> cells[j].blob.Ok?
    requires !flat ==> forall j :: 0 <= j < |resp.rmp| ==> resp.rmp[j].blob.Ok?
    ensures var cell := if flat then resp.rmp[i] else resp.mm[i];
      AllCands(resp) == Err(DecryptFailed(flat, cell.cellID, cell.blob.error))
  {
    FirstUndecryptable(flat, if flat then resp.rmp else resp.mm, i);
    TierDecrypts(true, resp.rmp, |resp.rmp|);
  }

  /** A search fails in its metadata calls exactly when one of them fails, with that call's error, and makes no
      further call. */
  lemma MetadataErrorEndsSearch(job: Job, calls: nat, r: Result<seq<Match>, SearchError>, asked: seq<Request>, k: nat)
    requires ResolvesTo(job, calls, r, asked) && k < calls
    ensures |asked| == calls
    ensures match ReplyTo(job.script, job.base + k)
      case Err(e) => k == calls - 1 && r == Err(MetadataFailed(e))
      case Ok(_) => k == calls - 1 ==> r.Ok?
  {
    hide Job.Matches, Job.Req, Job.Enough, FirstK;
    if k < calls - 1 {
      GoesBelow(job, calls, k + 1);
    }
  }

  // ---- no position is asked twice ----

  function RowsOf(req: Request, flat: bool): seq<CellRow> {
    if flat then req.rmpRows else req.mmRows
  }

  /** The rows of one tier asked in the first `c` round trips, in order. */
  function RowsAsked(job: Job, c: nat, flat: bool): seq<CellRow> {
    if c == 0 then [] else RowsAsked(job, c - 1, flat) + RowsOf(job.Req(c - 1), flat)
  }

  lemma {:induction false} TierRowsSplit(cs: seq<Cand>, flat: bool, a: nat, b: nat, n: nat)
    requires a <= b <= |cs| && n <= b - a
    ensures TierRows(cs, flat, a + n) == TierRows(cs, flat, a) + TierRows(cs[a..b], flat, n)
  {
    if n > 0 {
      TierRowsSplit(cs, flat, a, b, n - 1);
    }
  }

  lemma WindowRows(job: Job, k: nat, flat: bool)
    ensures TierRows(job.cands, flat, job.Asked(k + 1))
         == TierRows(job.cands, flat, job.Asked(k)) + RowsOf(job.Req(k), flat)
  {
    var a, b := job.Asked(k), job.Asked(k + 1);
    TierRowsSplit(job.cands, flat, a, b, b - a);
  }

  /** The requests of a run, strung together, list the rows of the asked candidates, each once and in rank order. */
  lemma {:induction false} RowsAskedInOrder(job: Job, c: nat, flat: bool)
    ensures RowsAsked(job, c, flat) == TierRows(job.cands, flat, job.Asked(c))
  {
    hide Job.Req;
    if c > 0 {
      RowsAskedInOrder(job, c - 1, flat);
      WindowRows(job, c - 1, flat);
    }
  }

  ghost predicate SamePosition(x: Cand, y: Cand) {
    x.flat == y.flat && x.cellID == y.cellID && x.row == y.row
  }

  ghost predicate PositionsDistinct(cs: seq<Cand>) {
    && (forall x, y :: x in cs && y in cs && SamePosition(x, y) ==> x == y)
    && (forall x :: multiset(cs)[x] <= 1)
  }

  lemma TwoIndices(cs: seq<Cand>, i: nat, j: nat)
    requires i < j < |cs| && cs[i] == cs[j]
    ensures multiset(cs)[cs[i]] >= 2
  {
    assert cs == cs[..j] + cs[j..];
    assert cs[i] in cs[..j] && cs[j] in cs[j..];
  }

  lemma {:induction false} TierRowsMembers(cs: seq<Cand>, flat: bool, n: nat, row: CellRow)
    requires n <= |cs|
    ensures row in TierRows(cs, flat, n) <==>
      exists i :: 0 <= i < n && cs[i].flat == flat && CellRow(cs[i].cellID, cs[i].row) == row
  {
    if n > 0 {
      TierRowsMembers(cs, flat, n - 1, row);
    }
  }

  lemma {:induction false} TierRowsDistinct(cs: seq<Cand>, flat: bool, n: nat)
    requires n <= |cs| && PositionsDistinct(cs)
    ensures forall i, j :: 0 <= i < j < |TierRows(cs, flat, n)| ==> TierRows(cs, flat, n)[i] != TierRows(cs, flat, n)[j]
  {
    if n > 0 {
      TierRowsDistinct(cs, flat, n - 1);
      var row := CellRow(cs[n - 1].cellID, cs[n - 1].row);
      TierRowsMembers(cs, flat, n - 1, row);
      if cs[n - 1].flat == flat && row in TierRows(cs, flat, n - 1) {
        var i :| 0 <= i < n - 1 && cs[i].flat == flat && CellRow(cs[i].cellID, cs[i].row) == row;
        assert SamePosition(cs[i], cs[n - 1]);
        TwoIndices(cs, i, n - 1);
      }
    }
  }

  /** Over a whole run no (tier, cell, row) is asked about twice, whatever the server replies,
      as long as the response addresses each position once. */
  lemma NoRowAskedTwice(cands: seq<Cand>, topK: Int64, scope: seq<string>, script: Script, base: nat,
                        c: nat, flat: bool)
    requires PositionsDistinct(cands)
    ensures var rows := RowsAsked(JobFor(cands, topK, scope, script, base), c, flat);
      forall i, j :: 0 <= i < j < |rows| ==> rows[i] != rows[j]
  {
    var job := JobFor(cands, topK, scope, script, base);
    SortStableFacts(cands);
    assert forall x :: x in job.cands <==> x in multiset(job.cands);
    assert forall x :: x in cands <==> x in multiset(cands);
    RowsAskedInOrder(job, c, flat);
    TierRowsDistinct(job.cands, flat, job.Asked(c));
  }

  /** The server reports each cell of a tier once. */
  ghost predicate DistinctCells(cells: seq<CellResult>) {
    forall i, j :: 0 <= i < j < |cells| ==> cells[i].cellID != cells[j].cellID
  }

  lemma {:induction false} DistinctCount(cs: seq<Cand>, x: Cand)
    requires forall i, j :: 0 <= i < j < |cs| ==> cs[i] != cs[j]
    ensures multiset(cs)[x] <= 1
  {
    if cs != [] {
      var n := |cs| - 1;
      DistinctCount(cs[..n], x);
      assert cs == cs[..n] + [cs[n]];
      assert cs[n] !in cs[..n];
    }
  }

  lemma {:induction false} TierCount(flat: bool, cells: seq<CellResult>, n: nat, x: Cand)
    requires n <= |cells| && TierCands(flat, cells, n).Ok? && DistinctCells(cells)
    ensures multiset(TierCands(flat, cells, n).value)[x] <= 1
  {
    if n > 0 {
      hide LiveCands;
      TierCount(flat, cells, n - 1, x);
      var cell := cells[n - 1];
      var scores := cell.blob.value;
      var before := TierCands(flat, cells, n - 1).value;
      var live := LiveCands(flat, cell.cellID, scores, cell.dead, |scores|);
      LiveCandsExact(flat, cell.cellID, scores, cell.dead, |scores|);
      DistinctCount(live, x);
      TierCandsExact(flat, cells, n - 1, x);
      assert !(x in before && x in live);
    }
  }

  /** A response that reports each cell of a tier once addresses each position once. */
  lemma ResponsePositionsDistinct(resp: Response)
    requires AllCands(resp).Ok? && DistinctCells(resp.rmp) && DistinctCells(resp.mm)
    ensures PositionsDistinct(AllCands(resp).value)
  {
    hide TierCands;
    var flat, mm := TierCands(true, resp.rmp, |resp.rmp|).value, TierCands(false, resp.mm, |resp.mm|).value;
    forall x: Cand
      ensures multiset(flat + mm)[x] <= 1
      ensures x in flat + mm <==>
        if x.flat then LiveRowOf(resp.rmp, |resp.rmp|, x) else LiveRowOf(resp.mm, |resp.mm|, x)
    {
      TierCount(true, resp.rmp, |resp.rmp|, x);
      TierCount(false, resp.mm, |resp.mm|, x);
      TierCandsExact(true, resp.rmp, |resp.rmp|, x);
      TierCandsExact(false, resp.mm, |resp.mm|, x);
    }
    forall x, y | x in flat + mm && y in flat + mm && SamePosition(x, y)
      ensures x == y
    {
      var cells := if x.flat then resp.rmp else resp.mm;
      var i :| 0 <= i < |cells| && InCell(cells[i], x);
      var j :| 0 <= j < |cells| && InCell(cells[j], y);
      assert i == j;
    }
  }

  // ---- refinement of the simple search ----

  /** In the first `c` windows the server resolves each position by the same row-to-item maps. */
  ghost predicate Steady(job: Job, res: Resolver, c: nat) {
    forall k: nat :: k < c ==> job.Rep(k) == Ok(InOrder(res, job.Req(k)))
  }

  /** Rank everything, resolve everything, keep the first occurrence of each id, cut at topK. */
  function SimpleSearch(cands: seq<Cand>, res: Resolver, topK: Int64): seq<Match> {
    var ranked := SortStable(cands);
    FirstK(Dedup(ranked, AnswersOf(res, ranked), |ranked|), topK)
  }

  lemma WindowSteady(job: Job, res: Resolver, k: nat, i: nat)
    requires Steady(job, res, k + 1) && i < |job.Window(k)|
    ensures job.WindowAnswers(k)[i] == AnswerOf(res, job.Window(k)[i])
  {
    ZipAlignment(res, job.Window(k), job.scope, 0, 0, i);
  }

  lemma {:induction false} AnswersSteady(job: Job, res: Resolver, c: nat, i: nat)
    requires Steady(job, res, c) && i < job.Asked(c)
    ensures job.Answers(c)[i] == AnswerOf(res, job.cands[i])
  {
    hide Job.WindowAnswers, Job.Req, Job.Rep;
    if i < job.Asked(c - 1) {
      AnswersSteady(job, res, c - 1, i);
    } else {
      WindowSteady(job, res, c - 1, i - job.Asked(c - 1));
    }
  }

  lemma {:induction false} MatchesSteady(job: Job, res: Resolver, c: nat)
    requires Steady(job, res, c)
    ensures job.Matches(c) == Dedup(job.cands, AnswersOf(res, job.cands), job.Asked(c))
    ensures !job.Failed(c)
  {
    forall i | 0 <= i < job.Asked(c)
      ensures job.Answers(c)[i] == AnswersOf(res, job.cands)[i]
    {
      AnswersSteady(job, res, c, i);
    }
    DedupLocal(job.cands, job.Answers(c), job.cands, AnswersOf(res, job.cands), job.Asked(c));
  }

  lemma FirstKStable(part: seq<Match>, all: seq<Match>, topK: int)
    requires part <= all && (part == all || 0 < topK <= |part|)
    ensures FirstK(part, topK) == FirstK(all, topK)
  {
  }

  /** With any window size, the windowed run returns what resolving everything first would. */
  lemma {:induction false} WindowsRefine(job: Job, res: Resolver, c: nat)
    requires Steady(job, res, c) && job.Stops(c)
    ensures job.Outcome(c) == Ok(FirstK(Dedup(job.cands, AnswersOf(res, job.cands), |job.cands|), job.topK))
  {
    var ans := AnswersOf(res, job.cands);
    MatchesSteady(job, res, c);
    DedupPrefix(job.cands, ans, job.Asked(c), |job.cands|);
    FirstKStable(job.Matches(c), Dedup(job.cands, ans, |job.cands|), job.topK);
  }

  lemma {:induction false} SearchRefines(cands: seq<Cand>, topK: Int64, scope: seq<string>, script: Script, base: nat,
                      res: Resolver, calls: nat)
    requires Steady(JobFor(cands, topK, scope, script, base), res, calls)
    requires JobFor(cands, topK, scope, script, base).Stops(calls)
    ensures JobFor(cands, topK, scope, script, base).Outcome(calls) == Ok(SimpleSearch(cands, res, topK))
  {
    WindowsRefine(JobFor(cands, topK, scope, script, base), res, calls);
  }

  /** The search, from the Search reply on: when positions resolve the same way throughout, it returns what ranking
      and resolving everything at once would return, for every topK, and it makes at least one round trip
      exactly when there is a live candidate. */
  lemma SearchReturnsSimple(resp: Response, topK: Int64, scope: seq<string>, script: Script, base: nat,
                            res: Resolver, calls: nat, r: Result<seq<Match>, SearchError>, asked: seq<Request>)
    requires AllCands(resp).Ok? && |AllCands(resp).value| < TWO_63
    requires var job := JobFor(AllCands(resp).value, topK, scope, script, base);
      ResolvesTo(job, calls, r, asked) && Steady(job, res, calls)
    ensures r == Ok(SimpleSearch(AllCands(resp).value, res, topK))
    ensures |asked| == calls && (calls > 0 <==> AllCands(resp).value != [])
  {
    hide AllCands, SortStable, SimpleSearch;
    var cands := AllCands(resp).value;
    SearchRefines(cands, topK, scope, script, base, res, calls);
    SortLength(cands);
    var job := JobFor(cands, topK, scope, script, base);
    assert job.Enough(0) <==> cands == [];
    if calls > 0 {
      GoesBelow(job, calls, 0);
    }
  }

  /** Asking for fewer matches returns a prefix of asking for more, although the windows differ. */
  lemma {:induction false} PrefixMonotone(few: Job, many: Job, cands: seq<Cand>, res: Resolver, calls: nat, calls': nat)
    requires few == JobFor(cands, few.topK, few.scope, few.script, few.base)
    requires many == JobFor(cands, many.topK, many.scope, many.script, many.base)
    requires 0 < few.topK && (few.topK <= many.topK || many.topK <= 0)
    requires few.Stops(calls) && Steady(few, res, calls)
    requires many.Stops(calls') && Steady(many, res, calls')
    ensures few.Outcome(calls).Ok? && many.Outcome(calls').Ok?
    ensures few.Outcome(calls).value <= many.Outcome(calls').value
  {
    WindowsRefine(few, res, calls);
    WindowsRefine(many, res, calls');
  }

  // ---- the round-trip bound ----

  lemma {:induction false} AskedLinear(job: Job, c: nat)
    requires job.Asked(c) < |job.cands|
    ensures job.Asked(c) == c * job.batch
  {
    if c > 0 {
      AskedLinear(job, c - 1);
      assert c * job.batch == (c - 1) * job.batch + job.batch;
    }
  }

  lemma NotYetEnough(job: Job, c: nat)
    requires job.topK > 0 && |job.cands| < TWO_63 && job.batch == BatchSize(|job.cands|, job.topK)
    requires job.Goes(c + 1)
    ensures |job.Matches(c)| <= job.topK - 1 && job.Asked(c) == c * (2 * job.topK)
  {
    BatchSizeExact(|job.cands|, job.topK);
    AskedLinear(job, c);
    if c > 0 {
      GoesBelow(job, c + 1, 1);
      assert job.batch == 2 * job.topK;
    }
  }

  /** With at most two positions per id and `d` unresolvable ones among the asked, c round trips satisfy
      (c - 1) * 2 * topK <= d + 2 * topK - 2: the window of 2 * topK absorbs all cross-tier duplicates. */
  lemma RoundTrips(job: Job, c: nat)
    requires job.topK > 0 && |job.cands| < TWO_63 && job.batch == BatchSize(|job.cands|, job.topK)
    requires job.Stops(c) && c > 0
    requires forall x :: x in IdBag(job.Answers(c), job.Asked(c)) ==> IdBag(job.Answers(c), job.Asked(c))[x] <= 2
    ensures (c - 1) * (2 * job.topK) <= Blanks(job.Answers(c), job.Asked(c)) + 2 * job.topK - 2
  {
    var n, ans := job.Asked(c - 1), job.Answers(c);
    NotYetEnough(job, c - 1);
    DedupLocal(job.cands, job.Answers(c - 1), job.cands, ans, n);
    PrefixCounts(ans, n, job.Asked(c));
    Pigeonhole(job.cands, ans, n, 2);
  }

  function CeilDiv(d: nat, m: nat): nat
    requires m > 0
  {
    (d + m - 1) / m
  }

  lemma MulMonotone(x: int, y: int, m: nat)
    requires x <= y
    ensures x * m <= y * m
  {
  }

  lemma CeilBound(c: nat, m: nat, d: nat)
    requires c > 0 && m > 0 && (c - 1) * m <= d + m - 2
    ensures c <= 1 + CeilDiv(d, m)
    ensures d <= 1 ==> c == 1
  {
    var q := (d + m - 1) / m;
    assert d + m - 1 < (q + 1) * m;
    if c > q + 1 {
      MulMonotone(q + 1, c - 1, m);
    }
    if c > 1 {
      MulMonotone(1, c - 1, m);
    }
  }

  lemma {:induction false} CountsLocal(ans: seq<Entry>, ans': seq<Entry>, n: nat)
    requires n <= |ans| && n <= |ans'|
    requires forall i :: 0 <= i < n ==> ans[i] == ans'[i]
    ensures IdBag(ans, n) == IdBag(ans', n) && Blanks(ans, n) == Blanks(ans', n)
  {
    if n > 0 {
      CountsLocal(ans, ans', n - 1);
    }
  }

  lemma {:induction false} CountsSteady(job: Job, res: Resolver, c: nat)
    requires Steady(job, res, c)
    ensures IdBag(job.Answers(c), job.Asked(c)) <= IdBag(AnswersOf(res, job.cands), |job.cands|)
    ensures Blanks(job.Answers(c), job.Asked(c)) <= Blanks(AnswersOf(res, job.cands), |job.cands|)
  {
    var ans := AnswersOf(res, job.cands);
    forall i | 0 <= i < job.Asked(c)
      ensures job.Answers(c)[i] == ans[i]
    {
      AnswersSteady(job, res, c, i);
    }
    CountsLocal(job.Answers(c), ans, job.Asked(c));
    PrefixCounts(ans, job.Asked(c), |job.cands|);
  }

  /** For a fixed resolver in which each id occupies at most two candidate positions and `d` positions are
      unresolvable, the search makes at most 1 + ceil(d / (2 * topK)) round trips, and exactly one when
      d <= 1 and there are candidates. */
  lemma {:induction false} RoundTripBound(cands: seq<Cand>, topK: Int64, scope: seq<string>, script: Script, base: nat,
                       res: Resolver, calls: nat)
    requires topK > 0 && 0 < |cands| < TWO_63 && Steady(JobFor(cands, topK, scope, script, base), res, calls)
    requires JobFor(cands, topK, scope, script, base).Stops(calls)
    requires var ranked := SortStable(cands);
      forall x :: x in IdBag(AnswersOf(res, ranked), |ranked|) ==> IdBag(AnswersOf(res, ranked), |ranked|)[x] <= 2
    ensures var ranked := SortStable(cands); var d := Blanks(AnswersOf(res, ranked), |ranked|);
      && 1 <= calls <= 1 + CeilDiv(d, 2 * topK)
      && (d <= 1 ==> calls == 1)
  {
    hide CeilDiv;
    var job := JobFor(cands, topK, scope, script, base);
    SortLength(cands);
    CountsSteady(job, res, calls);
    assert !job.Enough(0);
    if calls > 0 {
      RoundTrips(job, calls);
      CeilBound(calls, 2 * topK, Blanks(AnswersOf(res, job.cands), |job.cands|));
    }
  }

  // ---- which hit represents an id ----

  /** The k-th match comes from the first position of its id, which outscores every later one. */
  lemma FirstIsBest(cs: seq<Cand>, ans: seq<Entry>, n: nat, k: nat) returns (i: nat)
    requires n <= |cs| && n <= |ans| && k < |Dedup(cs, ans, n)| && Ranked(cs)
    ensures i < n && Dedup(cs, ans, n)[k] == MakeMatch(cs[i], ans[i])
    ensures forall j :: 0 <= j < n && ans[j].id == ans[i].id ==> i <= j && cs[j].score <= cs[i].score
  {
    hide Dedup;
    DedupIsFirstOccurrences(cs, ans, n);
    FirstsExact(ans, n);
    i := Firsts(ans, n)[k];
    assert i in Firsts(ans, n);
  }

  lemma RankedIndex(cands: seq<Cand>, c: Cand) returns (j: nat)
    requires c in cands
    ensures j < |SortStable(cands)| && SortStable(cands)[j] == c
  {
    SortStableFacts(cands);
    assert c in multiset(SortStable(cands));
    j :| 0 <= j < |SortStable(cands)| && SortStable(cands)[j] == c;
  }

  /** Each returned match is one of the candidates of its id, and has the best score among all of them. */
  lemma BestScore(cands: seq<Cand>, res: Resolver, topK: Int64, k: nat) returns (best: Cand)
    requires k < |SimpleSearch(cands, res, topK)|
    ensures best in cands && SimpleSearch(cands, res, topK)[k] == MakeMatch(best, AnswerOf(res, best))
    ensures forall c :: c in cands && AnswerOf(res, c).id == AnswerOf(res, best).id ==> c.score <= best.score
    ensures FlatFirst(cands) ==>
      forall c ::
        c in cands && AnswerOf(res, c).id == AnswerOf(res, best).id && c.score == best.score && c.flat ==> best.flat
  {
    hide Dedup, SortStable;
    var ranked := SortStable(cands);
    var ans := AnswersOf(res, ranked);
    SortStableFacts(cands);
    var i := FirstIsBest(ranked, ans, |ranked|, k);
    best := ranked[i];
    assert best in multiset(ranked);
    if FlatFirst(cands) {
      SortFlatWinsTies(cands);
    }
    forall c | c in cands && AnswerOf(res, c).id == AnswerOf(res, best).id
      ensures c.score <= best.score && (FlatFirst(cands) && c.score == best.score && c.flat ==> best.flat)
    {
      var j := RankedIndex(cands, c);
      assert ans[j].id == ans[i].id;
    }
  }

  /** An id served by both tiers at the same best score is reported from the flat tier. */
  lemma FlatTierReported(resp: Response, res: Resolver, topK: Int64, k: nat, c: Cand)
    requires AllCands(resp).Ok?
    requires var cands := AllCands(resp).value;
      && k < |SimpleSearch(cands, res, topK)|
      && c in cands && c.flat
      && AnswerOf(res, c).id == SimpleSearch(cands, res, topK)[k].id
      && c.score == SimpleSearch(cands, res, topK)[k].score
    ensures SimpleSearch(AllCands(resp).value, res, topK)[k].clusterID == -1
  {
    AllCandsFlatFirst(resp);
    var best := BestScore(AllCands(resp).value, res, topK, k);
  }

  /** A resolvable candidate whose id is not returned scores no more than any returned match,
      and the result is then full. */
  lemma LeftOutScoresLower(cands: seq<Cand>, res: Resolver, topK: Int64, c: Cand)
    requires c in cands && AnswerOf(res, c).id != NO_ID
    requires forall m :: m in SimpleSearch(cands, res, topK) ==> m.id != AnswerOf(res, c).id
    ensures topK > 0 && |SimpleSearch(cands, res, topK)| == topK
    ensures forall m :: m in SimpleSearch(cands, res, topK) ==> c.score <= m.score
  {
    hide Dedup, SortStable, IdSet;
    var ranked := SortStable(cands);
    var ans := AnswersOf(res, ranked);
    var all := Dedup(ranked, ans, |ranked|);
    SortStableFacts(cands);
    var j := RankedIndex(cands, c);
    IdSetOfDedup(ranked, ans, |ranked|, ans[j].id);
    IdSetMembers(all);
    var k :| 0 <= k < |all| && all[k].id == ans[j].id;
    var found := SimpleSearch(cands, res, topK);
    assert forall q :: 0 <= q < |found| ==> found[q] == all[q];
    assert k >= |found|;
    var i := FirstIsBest(ranked, ans, |ranked|, k);
    DedupRanked(ranked, ans, |ranked|);
  }
}
