/** Turning ranked candidates and their resolved entries into matches: blank ids are dropped,
    the first occurrence of an id wins, and the list is cut at topK. */
module Matching {
  import opened Wrappers
  import opened Ranking

  /** An item's opaque id as the server reports it. */
  datatype Id = Id(text: string)

  const NO_ID := Id("")

  /** One metadata entry of the server; the empty id marks an unresolvable position. */
  datatype Entry = Entry(id: Id, metadata: string)

  const BLANK := Entry(NO_ID, "")

  const FLAT_CLUSTER_ID: int := -1

  datatype Match = Match(id: Id, metadata: string, clusterID: int, row: nat, score: real)

  /** Go's conversion of a `uint32` to `int32`: two's complement of the same 32 bits. */
  function ToInt32(x: UInt32): int {
    if x < 0x8000_0000 then x else x - 0x1_0000_0000
  }

  function MakeMatch(c: Cand, e: Entry): Match {
    Match(e.id, e.metadata, if c.flat then FLAT_CLUSTER_ID else ToInt32(c.cellID), c.row, c.score)
  }

  /** A cluster hit carries its cell id, and a non-negative tier mark, exactly when the cell id is below 2^31;
      the cell id 2^32 - 1 even reads as the flat tier. */
  lemma ClusterIdReadable(c: Cand, e: Entry)
    requires !c.flat
    ensures MakeMatch(c, e).clusterID >= 0 <==> c.cellID < 0x8000_0000
    ensures MakeMatch(c, e).clusterID == c.cellID <==> c.cellID < 0x8000_0000
    ensures MakeMatch(c, e).clusterID == FLAT_CLUSTER_ID <==> c.cellID == 0xFFFF_FFFF
  {
  }

  /** The ids already matched. */
  function IdSet(ms: seq<Match>): set<Id> {
    if ms == [] then {} else IdSet(ms[..|ms| - 1]) + {ms[|ms| - 1].id}
  }

  /** What one more resolved candidate adds to the matches: nothing when its id is empty or already listed. */
  function Absorb(out: seq<Match>, c: Cand, e: Entry): seq<Match> {
    if e.id == NO_ID || e.id in IdSet(out) then out else out + [MakeMatch(c, e)]
  }

  /** The matches of the first `n` candidates, the i-th of which resolved to `ans[i]`. */
  function Dedup(cs: seq<Cand>, ans: seq<Entry>, n: nat): seq<Match>
    requires n <= |cs| && n <= |ans|
  {
    if n == 0 then [] else Absorb(Dedup(cs, ans, n - 1), cs[n - 1], ans[n - 1])
  }

  /** At most topK matches; every match when topK is not positive. */
  function FirstK(ms: seq<Match>, topK: int): seq<Match> {
    if topK > 0 && |ms| > topK then ms[..topK] else ms
  }

  /** Resolving fewer candidates yields a prefix of the matches. */
  lemma {:induction false} DedupPrefix(cs: seq<Cand>, ans: seq<Entry>, m: nat, n: nat)
    requires m <= n <= |cs| && n <= |ans|
    ensures Dedup(cs, ans, m) <= Dedup(cs, ans, n)
  {
    if m < n {
      DedupPrefix(cs, ans, m, n - 1);
    }
  }

  /** Only the first `n` candidates and entries matter. */
  lemma {:induction false} DedupLocal(cs: seq<Cand>, ans: seq<Entry>, cs': seq<Cand>, ans': seq<Entry>, n: nat)
    requires n <= |cs| && n <= |ans| && n <= |cs'| && n <= |ans'|
    requires forall i :: 0 <= i < n ==> cs[i] == cs'[i] && ans[i] == ans'[i]
    ensures Dedup(cs, ans, n) == Dedup(cs', ans', n)
  {
    if n > 0 {
      DedupLocal(cs, ans, cs', ans', n - 1);
    }
  }

  lemma {:induction false} IdSetMembers(ms: seq<Match>)
    ensures forall id :: id in IdSet(ms) <==> exists k :: 0 <= k < |ms| && ms[k].id == id
  {
    if ms != [] {
      IdSetMembers(ms[..|ms| - 1]);
    }
  }

  lemma IdSetAppend(ms: seq<Match>, m: Match)
    ensures IdSet(ms + [m]) == IdSet(ms) + {m.id}
  {
    assert (ms + [m])[..|ms|] == ms;
  }

  // ---- the declarative reading of Dedup ----

  ghost predicate IsFirst(ans: seq<Entry>, i: nat) {
    i < |ans| && ans[i].id != NO_ID && forall j :: 0 <= j < i ==> ans[j].id != ans[i].id
  }

  /** The positions below `n` that hold the first occurrence of a non-empty id, ascending. */
  ghost function Firsts(ans: seq<Entry>, n: nat): (idx: seq<nat>)
    requires n <= |ans|
    ensures forall k :: 0 <= k < |idx| ==> idx[k] < n
  {
    if n == 0 then [] else Firsts(ans, n - 1) + (if IsFirst(ans, n - 1) then [n - 1] else [])
  }

  lemma {:induction false} FirstsExact(ans: seq<Entry>, n: nat)
    requires n <= |ans|
    ensures forall j, k :: 0 <= j < k < |Firsts(ans, n)| ==> Firsts(ans, n)[j] < Firsts(ans, n)[k]
    ensures forall i: nat :: i in Firsts(ans, n) <==> i < n && IsFirst(ans, i)
  {
    if n > 0 {
      FirstsExact(ans, n - 1);
    }
  }

  /** The matched ids are exactly the non-empty ids resolved so far. */
  lemma {:induction false} IdSetOfDedup(cs: seq<Cand>, ans: seq<Entry>, n: nat, id: Id)
    requires n <= |cs| && n <= |ans|
    ensures id in IdSet(Dedup(cs, ans, n)) <==> id != NO_ID && exists j :: 0 <= j < n && ans[j].id == id
  {
    if n > 0 {
      IdSetOfDedup(cs, ans, n - 1, id);
      IdSetAppend(Dedup(cs, ans, n - 1), MakeMatch(cs[n - 1], ans[n - 1]));
    }
  }

  lemma FirstIffAbsorbed(cs: seq<Cand>, ans: seq<Entry>, i: nat)
    requires i < |cs| && i < |ans|
    ensures IsFirst(ans, i) <==> ans[i].id != NO_ID && ans[i].id !in IdSet(Dedup(cs, ans, i))
  {
    IdSetOfDedup(cs, ans, i, ans[i].id);
  }

  lemma DedupStep(cs: seq<Cand>, ans: seq<Entry>, n: nat)
    requires n < |cs| && n < |ans|
    ensures Dedup(cs, ans, n + 1)
         == Dedup(cs, ans, n) + (if IsFirst(ans, n) then [MakeMatch(cs[n], ans[n])] else [])
    ensures Firsts(ans, n + 1) == Firsts(ans, n) + (if IsFirst(ans, n) then [n] else [])
  {
    hide IdSet, MakeMatch, IsFirst;
    FirstIffAbsorbed(cs, ans, n);
  }

  lemma NothingFirst(cs: seq<Cand>, ans: seq<Entry>)
    ensures Dedup(cs, ans, 0) == [] && Firsts(ans, 0) == []
  {
  }

  /** `Dedup` lists exactly the first occurrences of the non-empty ids, in candidate order. */
  lemma {:induction false} DedupIsFirstOccurrences(cs: seq<Cand>, ans: seq<Entry>, n: nat)
    requires n <= |cs| && n <= |ans|
    ensures |Dedup(cs, ans, n)| == |Firsts(ans, n)|
    ensures forall k :: 0 <= k < |Firsts(ans, n)| ==>
              Dedup(cs, ans, n)[k] == MakeMatch(cs[Firsts(ans, n)[k]], ans[Firsts(ans, n)[k]])
  {
    hide Dedup, Firsts, MakeMatch, IsFirst;
    if n == 0 {
      NothingFirst(cs, ans);
    } else {
      DedupIsFirstOccurrences(cs, ans, n - 1);
      DedupStep(cs, ans, n - 1);
    }
  }

  /** Every match has a non-empty id and no two share one. */
  lemma DedupDistinct(cs: seq<Cand>, ans: seq<Entry>, n: nat)
    requires n <= |cs| && n <= |ans|
    ensures forall k :: 0 <= k < |Dedup(cs, ans, n)| ==> Dedup(cs, ans, n)[k].id != NO_ID
    ensures forall j, k :: 0 <= j < k < |Dedup(cs, ans, n)| ==> Dedup(cs, ans, n)[j].id != Dedup(cs, ans, n)[k].id
  {
    var idx := Firsts(ans, n);
    DedupIsFirstOccurrences(cs, ans, n);
    FirstsExact(ans, n);
    assert forall k :: 0 <= k < |idx| ==> idx[k] in idx;
  }

  lemma DedupRanked(cs: seq<Cand>, ans: seq<Entry>, n: nat)
    requires n <= |cs| && n <= |ans| && Ranked(cs)
    ensures forall j, k :: 0 <= j < k < |Dedup(cs, ans, n)| ==> Dedup(cs, ans, n)[j].score >= Dedup(cs, ans, n)[k].score
  {
    DedupIsFirstOccurrences(cs, ans, n);
    FirstsExact(ans, n);
  }

  // ---- counting: how many positions an id may occupy ----

  /** The non-empty ids among the first `n` entries, with multiplicity. */
  function IdBag(ans: seq<Entry>, n: nat): multiset<Id>
    requires n <= |ans|
  {
    if n == 0 then multiset{}
    else IdBag(ans, n - 1) + (if ans[n - 1].id == NO_ID then multiset{} else multiset{ans[n - 1].id})
  }

  /** How many of the first `n` entries are unresolvable. */
  function Blanks(ans: seq<Entry>, n: nat): nat
    requires n <= |ans|
  {
    if n == 0 then 0 else Blanks(ans, n - 1) + (if ans[n - 1].id == NO_ID then 1 else 0)
  }

  lemma {:induction false} PrefixCounts(ans: seq<Entry>, m: nat, n: nat)
    requires m <= n <= |ans|
    ensures IdBag(ans, m) <= IdBag(ans, n) && Blanks(ans, m) <= Blanks(ans, n)
  {
    if m < n {
      PrefixCounts(ans, m, n - 1);
    }
  }

  lemma {:induction false} BagSize(bag: multiset<Id>, support: set<Id>, most: nat)
    requires forall x :: x in bag ==> x in support && bag[x] <= most
    ensures |bag| <= most * |support|
    decreases |support|
  {
    if support == {} {
      assert bag == multiset{};
    } else {
      var x :| x in support;
      BagSize(bag[x := 0], support - {x}, most);
      assert |support - {x}| == |support| - 1;
      assert most * |support| == most * |support - {x}| + most;
    }
  }

  lemma {:induction false} IdSetSize(ms: seq<Match>)
    requires forall j, k :: 0 <= j < k < |ms| ==> ms[j].id != ms[k].id
    ensures |IdSet(ms)| == |ms|
  {
    if ms != [] {
      IdSetSize(ms[..|ms| - 1]);
      IdSetMembers(ms[..|ms| - 1]);
    }
  }

  /** One more candidate adds its id to the matched ones unless the id is empty. */
  lemma MatchedStep(cs: seq<Cand>, ans: seq<Entry>, n: nat)
    requires n < |cs| && n < |ans|
    ensures IdSet(Dedup(cs, ans, n + 1))
         == IdSet(Dedup(cs, ans, n)) + (if ans[n].id == NO_ID then {} else {ans[n].id})
  {
    hide IdSet;
    IdSetAppend(Dedup(cs, ans, n), MakeMatch(cs[n], ans[n]));
  }

  lemma {:induction false} BagFacts(cs: seq<Cand>, ans: seq<Entry>, n: nat)
    requires n <= |cs| && n <= |ans|
    ensures |IdBag(ans, n)| + Blanks(ans, n) == n
    ensures forall x :: x in IdBag(ans, n) ==> x in IdSet(Dedup(cs, ans, n))
  {
    hide IdSet, Dedup;
    if n > 0 {
      BagFacts(cs, ans, n - 1);
      MatchedStep(cs, ans, n - 1);
    }
  }

  /** Pigeonhole: if every id occupies at most `most` of the positions, the matches account for
      at least a `most`-th of the resolvable ones. */
  lemma Pigeonhole(cs: seq<Cand>, ans: seq<Entry>, n: nat, most: nat)
    requires n <= |cs| && n <= |ans|
    requires forall x :: x in IdBag(ans, n) ==> IdBag(ans, n)[x] <= most
    ensures n <= most * |Dedup(cs, ans, n)| + Blanks(ans, n)
  {
    var out := Dedup(cs, ans, n);
    BagFacts(cs, ans, n);
    DedupDistinct(cs, ans, n);
    IdSetSize(out);
    BagSize(IdBag(ans, n), IdSet(out), most);
  }
}
