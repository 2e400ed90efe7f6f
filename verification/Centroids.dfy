/** The centroid set a server streams to its clients, and its assembly from the stream. */
module Centroids {
  import opened Wrappers
  import opened Vectors

  datatype CentroidSet = CentroidSet(version: string, dim: nat, preset: string, vectors: seq<Vec>)

  /** What stands for a server without a clustered tier. */
  const EMPTY_SET := CentroidSet("", 0, "", [])

  /** Whether the set can route inserts. */
  predicate Enabled(cs: CentroidSet) {
    cs.version != "" && |cs.vectors| > 0
  }

  datatype Centroid = Centroid(id: UInt32, vec: Vec)

  /** One frame of the GetCentroids stream; `Blank` carries no payload. */
  datatype Chunk =
    | Header(version: string, dim: UInt32, preset: string, nlist: UInt32)
    | Batch(centroids: seq<Centroid>)
    | Blank

  function VecsOf(cs: seq<Centroid>): seq<Vec> {
    seq(|cs|, i requires 0 <= i < |cs| => cs[i].vec)
  }

  /** What one frame does to the set being assembled; a header that announces centroids starts the list over. */
  function Absorb(cs: CentroidSet, chunk: Chunk): CentroidSet {
    match chunk
    case Header(version, dim, preset, nlist) =>
      CentroidSet(version, dim, preset, if nlist > 0 then [] else cs.vectors)
    case Batch(centroids) => cs.(vectors := cs.vectors + VecsOf(centroids))
    case Blank => cs
  }

  function Assemble(chunks: seq<Chunk>, n: nat): CentroidSet
    requires n <= |chunks|
  {
    if n == 0 then EMPTY_SET else Absorb(Assemble(chunks, n - 1), chunks[n - 1])
  }

  /** Reads frames to the end of the stream, which is either regular or an error `fail`. */
  method ReadCentroidSet(chunks: seq<Chunk>, fail: Option<string>) returns (r: Result<CentroidSet, string>)
    ensures r == match fail case Some(e) => Err(e) case None => Ok(Assemble(chunks, |chunks|))
  {
    var cs := EMPTY_SET;
    for i := 0 to |chunks|
      invariant cs == Assemble(chunks, i)
    {
      match chunks[i]
      case Header(version, dim, preset, nlist) =>
        cs := cs.(version := version, dim := dim, preset := preset);
        if nlist > 0 {
          cs := cs.(vectors := []);
        }
      case Batch(centroids) =>
        var vectors := cs.vectors;
        for j := 0 to |centroids|
          invariant vectors == cs.vectors + VecsOf(centroids)[..j]
        {
          vectors := vectors + [centroids[j].vec];
        }
        cs := cs.(vectors := vectors);
      case Blank =>
    }
    match fail
    case Some(e) => return Err(e);
    case None => return Ok(cs);
  }

  function Joined(batches: seq<seq<Centroid>>): seq<Centroid> {
    if batches == [] then [] else Joined(batches[..|batches| - 1]) + batches[|batches| - 1]
  }

  function Frames(header: Chunk, batches: seq<seq<Centroid>>): seq<Chunk> {
    [header] + seq(|batches|, i requires 0 <= i < |batches| => Batch(batches[i]))
  }

  lemma {:induction false} AssemblePrefix(chunks: seq<Chunk>, more: seq<Chunk>, n: nat)
    requires n <= |chunks|
    ensures Assemble(chunks + more, n) == Assemble(chunks, n)
  {
    if n > 0 {
      AssemblePrefix(chunks, more, n - 1);
    }
  }

  lemma VecsOfBoth(a: seq<Centroid>, b: seq<Centroid>)
    ensures VecsOf(a + b) == VecsOf(a) + VecsOf(b)
  {
  }

  lemma JoinedNext(batches: seq<seq<Centroid>>, n: nat)
    requires n < |batches|
    ensures Joined(batches[..n + 1]) == Joined(batches[..n]) + batches[n]
  {
    assert batches[..n + 1][..n] == batches[..n];
  }

  lemma NothingJoined(batches: seq<seq<Centroid>>)
    ensures VecsOf(Joined(batches[..0])) == []
  {
  }

  /** A header takes over version, dimension and preset, and starts the list over if it announces centroids; the
      batches after it are appended in the order in which they arrive. */
  lemma {:induction false} AssembleFrames(before: seq<Chunk>, header: Chunk, batches: seq<seq<Centroid>>, n: nat)
    requires header.Header? && n <= |batches|
    ensures var kept := if header.nlist > 0 then [] else Assemble(before, |before|).vectors;
      Assemble(before + Frames(header, batches), |before| + n + 1)
      == CentroidSet(header.version, header.dim, header.preset, kept + VecsOf(Joined(batches[..n])))
  {
    hide VecsOf, Joined;
    var chunks := before + Frames(header, batches);
    var kept := if header.nlist > 0 then [] else Assemble(before, |before|).vectors;
    if n == 0 {
      AssemblePrefix(before, Frames(header, batches), |before|);
      NothingJoined(batches);
      assert chunks[|before|] == header;
      assert kept + [] == kept;
    } else {
      var joined := Joined(batches[..n - 1]);
      AssembleFrames(before, header, batches, n - 1);
      JoinedNext(batches, n - 1);
      VecsOfBoth(joined, batches[n - 1]);
      assert chunks[|before| + n] == Batch(batches[n - 1]);
      assert (kept + VecsOf(joined)) + VecsOf(batches[n - 1]) == kept + VecsOf(joined + batches[n - 1]);
    }
  }

  /** A frame without payload changes nothing. */
  lemma BlankIgnored(chunks: seq<Chunk>)
    ensures Assemble(chunks + [Blank], |chunks| + 1) == Assemble(chunks, |chunks|)
  {
    AssemblePrefix(chunks, [Blank], |chunks|);
  }

  lemma StartsEmpty()
    ensures Assemble([], 0) == CentroidSet("", 0, "", [])
  {
  }

  /** However the server splits an id-ordered set into batches after its header, the assembled set is the
      same: index i holds the vector of cluster i, and routing picks the cluster it would in the original. */
  lemma BatchingIndependent(header: Chunk, batches: seq<seq<Centroid>>, centroids: seq<Centroid>, vec: Vec)
    requires header.Header? && Joined(batches) == centroids
    requires forall i :: 0 <= i < |centroids| ==> centroids[i].id == i
    ensures var cs := Assemble(Frames(header, batches), |batches| + 1);
      && cs == CentroidSet(header.version, header.dim, header.preset, VecsOf(centroids))
      && |cs.vectors| == |centroids|
      && (forall c :: c in centroids ==> c.id < |cs.vectors| && cs.vectors[c.id] == c.vec)
      && (centroids != [] ==> IsLowestArgmax(VecsOf(centroids), vec, Assigned(cs.vectors, vec)))
  {
    hide Assemble;
    AssembleFrames([], header, batches, |batches|);
    StartsEmpty();
    assert [] + Frames(header, batches) == Frames(header, batches);
    assert batches[..|batches|] == batches;
    if centroids != [] {
      AssignedIsLowestArgmax(VecsOf(centroids), vec, Assigned(VecsOf(centroids), vec));
    }
  }
}
