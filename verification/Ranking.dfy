/** Candidate hits: dropping dead rows, merging the tiers, and ranking by score. */
module Ranking {
  import opened Wrappers
  import opened Bitmap

  /** A decrypted score at a (cell, row) position of one tier, before resolution. */
  datatype Cand = Cand(flat: bool, cellID: UInt32, row: nat, score: real)

  // ---- one cell's live rows ----

  /** The live rows among the first `n` scored rows of a cell, in row order. */
  function LiveCands(flat: bool, cellID: UInt32, scores: seq<real>, dead: seq<bv8>, n: nat): seq<Cand>
    requires n <= |scores|
  {
    if n == 0 then []
    else
      var before := LiveCands(flat, cellID, scores, dead, n - 1);
      if IsDead(dead, n - 1) then before else before + [Cand(flat, cellID, n - 1, scores[n - 1])]
  }

  /** Every element is a live row of the cell with its own score, rows ascend strictly,
      and no live row is missing. */
  lemma {:induction false} LiveCandsExact(flat: bool, cellID: UInt32, scores: seq<real>, dead: seq<bv8>, n: nat)
    requires n <= |scores|
    ensures forall c :: c in LiveCands(flat, cellID, scores, dead, n)
              <==> c.row < n && !IsDead(dead, c.row) && c == Cand(flat, cellID, c.row, scores[c.row])
    ensures forall j, k :: 0 <= j < k < |LiveCands(flat, cellID, scores, dead, n)| ==>
              LiveCands(flat, cellID, scores, dead, n)[j].row < LiveCands(flat, cellID, scores, dead, n)[k].row
  {
    hide IsDead;
    if n > 0 {
      LiveCandsExact(flat, cellID, scores, dead, n - 1);
      var before := LiveCands(flat, cellID, scores, dead, n - 1);
      assert forall k :: 0 <= k < |before| ==> before[k] in before;
    }
  }

  method AppendCands(dst: seq<Cand>, flat: bool, cellID: UInt32, scores: seq<real>, dead: seq<bv8>)
    returns (cands: seq<Cand>)
    ensures cands == dst + LiveCands(flat, cellID, scores, dead, |scores|)
  {
    cands := dst;
    for i := 0 to |scores|
      invariant cands == dst + LiveCands(flat, cellID, scores, dead, i)
    {
      if IsDead(dead, i) {
        continue;
      }
      cands := cands + [Cand(flat, cellID, i, scores[i])];
    }
  }

  // ---- stable sort by descending score ----

  ghost predicate Ranked(cs: seq<Cand>) {
    forall i, j :: 0 <= i < j < |cs| ==> cs[i].score >= cs[j].score
  }

  /** The elements of `cs` whose score is `v`, in their order in `cs`. */
  function WithScore(cs: seq<Cand>, v: real): seq<Cand> {
    if cs == [] then []
    else (if cs[0].score == v then [cs[0]] else []) + WithScore(cs[1..], v)
  }

  /** `c` placed in front of the first element that does not outscore it. */
  function Place(c: Cand, cs: seq<Cand>): seq<Cand> {
    if cs == [] || c.score >= cs[0].score then [c] + cs
    else [cs[0]] + Place(c, cs[1..])
  }

  /** The candidates in descending score order, equal scores in their original order. */
  function SortStable(cs: seq<Cand>): seq<Cand> {
    if cs == [] then [] else Place(cs[0], SortStable(cs[1..]))
  }

  lemma {:induction false} PlacePermutes(c: Cand, cs: seq<Cand>)
    ensures multiset(Place(c, cs)) == multiset{c} + multiset(cs)
  {
    if cs != [] && c.score < cs[0].score {
      PlacePermutes(c, cs[1..]);
      assert cs == [cs[0]] + cs[1..];
    }
  }

  lemma PlacedBelow(c: Cand, cs: seq<Cand>, bound: real)
    requires c.score <= bound && forall i :: 0 <= i < |cs| ==> cs[i].score <= bound
    ensures forall i :: 0 <= i < |Place(c, cs)| ==> Place(c, cs)[i].score <= bound
  {
    hide Place;
    PlacePermutes(c, cs);
    forall i | 0 <= i < |Place(c, cs)|
      ensures Place(c, cs)[i].score <= bound
    {
      assert Place(c, cs)[i] in multiset(Place(c, cs));
    }
  }

  lemma {:induction false} PlaceRanks(c: Cand, cs: seq<Cand>)
    requires Ranked(cs)
    ensures Ranked(Place(c, cs))
  {
    if cs != [] && c.score < cs[0].score {
      PlaceRanks(c, cs[1..]);
      PlacedBelow(c, cs[1..], cs[0].score);
    }
  }

  lemma {:induction false} PlaceKeepsRuns(c: Cand, cs: seq<Cand>, v: real)
    ensures WithScore(Place(c, cs), v) == WithScore([c] + cs, v)
  {
    assert ([c] + cs)[1..] == cs;
    if cs != [] && c.score < cs[0].score {
      PlaceKeepsRuns(c, cs[1..], v);
      assert ([c] + cs[1..])[1..] == cs[1..];
      assert Place(c, cs)[1..] == Place(c, cs[1..]);
    }
  }

  lemma WithScoreAhead(c: Cand, cs: seq<Cand>, v: real)
    ensures WithScore([c] + cs, v) == (if c.score == v then [c] else []) + WithScore(cs, v)
  {
    assert ([c] + cs)[1..] == cs;
  }

  lemma {:induction false} SortStableFacts(cs: seq<Cand>)
    ensures Ranked(SortStable(cs))
    ensures multiset(SortStable(cs)) == multiset(cs)
    ensures forall v :: WithScore(SortStable(cs), v) == WithScore(cs, v)
  {
    hide Place, WithScore;
    if cs != [] {
      var tail := SortStable(cs[1..]);
      SortStableFacts(cs[1..]);
      PlacePermutes(cs[0], tail);
      PlaceRanks(cs[0], tail);
      assert cs == [cs[0]] + cs[1..];
      forall v
        ensures WithScore(SortStable(cs), v) == WithScore(cs, v)
      {
        PlaceKeepsRuns(cs[0], tail, v);
        WithScoreAhead(cs[0], tail, v);
        WithScoreAhead(cs[0], cs[1..], v);
      }
    }
  }

  lemma SortLength(cs: seq<Cand>)
    ensures |SortStable(cs)| == |cs|
  {
    SortStableFacts(cs);
    assert |multiset(SortStable(cs))| == |multiset(cs)|;
  }

  lemma {:induction false} WithScoreMember(cs: seq<Cand>, v: real)
    ensures forall c :: c in WithScore(cs, v) <==> c in cs && c.score == v
  {
    if cs != [] {
      WithScoreMember(cs[1..], v);
      assert cs == [cs[0]] + cs[1..];
    }
  }

  lemma HasRun(cs: seq<Cand>)
    ensures cs != [] ==> exists v :: WithScore(cs, v) != []
  {
    assert cs != [] ==> WithScore(cs, cs[0].score) != [];
  }

  /** A ranked list is determined by its equal-score runs, so any stable descending sort of `cs`
      is `SortStable(cs)`. */
  lemma {:induction false} StableSortUnique(a: seq<Cand>, b: seq<Cand>)
    requires Ranked(a) && Ranked(b)
    requires forall v :: WithScore(a, v) == WithScore(b, v)
    ensures a == b
  {
    HasRun(a);
    HasRun(b);
    if a != [] && b != [] {
      assert a[0] in WithScore(a, a[0].score) && b[0] in WithScore(b, b[0].score);
      WithScoreMember(b, a[0].score);
      WithScoreMember(a, b[0].score);
      assert a[0].score == b[0].score;
      assert WithScore(a, a[0].score)[0] == a[0] && WithScore(b, a[0].score)[0] == b[0];
      forall v
        ensures WithScore(a[1..], v) == WithScore(b[1..], v)
      {
        var head := if a[0].score == v then [a[0]] else [];
        assert WithScore(a, v) == head + WithScore(a[1..], v);
        assert WithScore(b, v) == head + WithScore(b[1..], v);
        assert WithScore(a[1..], v) == WithScore(a, v)[|head|..];
      }
      StableSortUnique(a[1..], b[1..]);
    }
  }

  // ---- the flat tier wins ties ----

  /** The order in which the tiers are appended: all flat candidates come first. */
  ghost predicate FlatFirst(cs: seq<Cand>) {
    forall i, j :: 0 <= i < j < |cs| && cs[j].flat ==> cs[i].flat
  }

  ghost predicate FlatWinsTies(cs: seq<Cand>) {
    forall i, j :: 0 <= i < j < |cs| && cs[i].score == cs[j].score && cs[j].flat ==> cs[i].flat
  }

  lemma {:induction false} PlaceFlatWinsTies(c: Cand, cs: seq<Cand>)
    requires Ranked(cs) && FlatWinsTies(cs)
    requires c.flat || forall x :: x in cs ==> !x.flat
    ensures FlatWinsTies(Place(c, cs))
  {
    if cs != [] && c.score < cs[0].score {
      PlaceFlatWinsTies(c, cs[1..]);
      PlacePermutes(c, cs[1..]);
      var tail := Place(c, cs[1..]);
      forall j | 0 <= j < |tail| && tail[j].score == cs[0].score && tail[j].flat
        ensures cs[0].flat
      {
        assert tail[j] in multiset(tail);
        assert tail[j] in cs[1..];
      }
    } else {
      forall j | 0 <= j < |cs| && cs[j].flat
        ensures c.flat
      {
        assert cs[j] in cs;
      }
    }
  }

  /** A stable sort of flat-first candidates puts a flat hit ahead of every equally scored cluster hit. */
  lemma {:induction false} SortFlatWinsTies(cs: seq<Cand>)
    requires FlatFirst(cs)
    ensures FlatWinsTies(SortStable(cs))
  {
    if cs != [] {
      SortFlatWinsTies(cs[1..]);
      SortStableFacts(cs[1..]);
      var tail := SortStable(cs[1..]);
      forall x | x in tail
        ensures cs[0].flat || !x.flat
      {
        assert x in multiset(tail);
        assert x in cs[1..];
        var k :| 0 <= k < |cs[1..]| && cs[1..][k] == x;
        assert cs[k + 1] == x;
      }
      PlaceFlatWinsTies(cs[0], tail);
    }
  }
}
