/** One insert from end to end: normalize, route against the cached centroid set, send with retries. */
module Insert {
  import opened Wrappers
  import opened Vectors
  import opened Centroids
  import opened CentroidCache
  import opened Retry
  import opened InsertProtocol

  datatype InsertError =
    | ClientClosed
    | KeysNotRegistered
    | DimMismatch(got: nat, want: int)
    | InvalidMetadata
    | EncryptFailed(flat: bool)
    | CentroidsFailed(msg: string)
    | ClusterRequired
    | NotInserted(why: Outcome)

  /** What the libraries and the server contribute to one insert: the square root, whether the metadata is valid
      JSON, whether each encryption works, the fresh id, the fetched set, and the attempts the context cuts off. */
  datatype World = World(
    root: real, validJson: bool, flatOk: bool, mmOk: bool, id: Uuid, fetch: Fetch, cancelled: set<nat>)

  class Client {
    var open: bool
    var dim: Option<int>      // the dimension of the registered key set
    const cache: Cache
    const svc: InsertService

    constructor (dim: Option<int>, svc: InsertService)
      ensures open && this.dim == dim && this.svc == svc && fresh(cache) && cache.Contents() == None
    {
      open, this.dim, this.svc := true, dim, svc;
      cache := new Cache();
    }

    /** Nothing speaks against the insert before a centroid set is needed. */
    predicate Admits(vec: Vec, metadata: string, w: World)
      reads this
    {
      open && dim == Some(|vec|) && (metadata == "" || w.validJson) && w.flatOk
    }

    /** Every request that reaches the server carries the fresh id, the unit vector, the caller's metadata and
        tags, and the lowest-index argmax over the set now in the cache under that set's version, which is also
        the cluster of the vector as the caller gave it. Success means the last attempt was acknowledged, and an
        error before the first attempt sends nothing. */
    method Insert(vec: Vec, metadata: string, tags: seq<string>, w: World) returns (r: Result<Uuid, InsertError>)
      requires IsRoot(w.root, SumSq(vec))
      modifies cache, svc
      ensures old(svc.sent) <= svc.sent && |svc.sent| <= |old(svc.sent)| + 3
      ensures forall k :: |old(svc.sent)| <= k < |svc.sent| ==>
        && cache.Contents().Some?
        && svc.sent[k].id == w.id && svc.sent[k].item == Item(Normalized(vec, w.root), metadata, tags)
        && WellRouted(svc.sent[k], cache.Contents().value)
        && svc.sent[k].clusterID == ToUInt32(Assigned(cache.Contents().value.vectors, vec))
      ensures |svc.sent| > |old(svc.sent)| <==> r.Ok? || r.error.NotInserted?
      ensures |svc.sent| > |old(svc.sent)| <==>
        && Admits(vec, metadata, w) && w.mmOk && cache.Contents().Some?
        && var cs := cache.Contents().value; cs.version != "" && cs.vectors != [] && cs.dim == |vec|
      ensures !open ==> r == Err(ClientClosed)
      ensures open && dim == None ==> r == Err(KeysNotRegistered)
      ensures open && dim.Some? && dim.value != |vec| ==> r == Err(DimMismatch(|vec|, dim.value))
      ensures open && dim == Some(|vec|) && metadata != "" && !w.validJson ==> r == Err(InvalidMetadata)
      ensures open && dim == Some(|vec|) && (metadata == "" || w.validJson) && !w.flatOk ==>
        r == Err(EncryptFailed(true))
      ensures old(cache.Contents()).Some? || !Admits(vec, metadata, w) ==> cache.Contents() == old(cache.Contents())
      ensures old(cache.Contents()).None? && Admits(vec, metadata, w) ==>
        match w.fetch
        case Set(cs) => cache.Contents() == Some(cs)
        case Unimplemented => cache.Contents() == Some(CentroidSet("", 0, "", []))
        case Failure(msg) => cache.Contents() == None && r == Err(CentroidsFailed(msg))
      ensures Admits(vec, metadata, w) && cache.Contents().Some? ==>
        var cs := cache.Contents().value;
        && (cs.version == "" || cs.vectors == [] ==> r == Err(ClusterRequired))
        && (cs.version != "" && cs.vectors != [] && cs.dim != |vec| ==> r == Err(DimMismatch(|vec|, cs.dim)))
        && (cs.version != "" && cs.vectors != [] && cs.dim == |vec| && !w.mmOk ==> r == Err(EncryptFailed(false)))
      ensures r.Ok? ==> r.value == w.id && AnswerTo(svc.script, |svc.sent| - 1, 0) == Ack
      ensures r.Err? && r.error.NotInserted? ==>
        match AnswerTo(svc.script, |svc.sent| - 1, 0)
        case Ack => false
        case Mismatch => r.error.why == VersionMismatch
        case OtherError(code) => r.error.why == Failed(code)
        case Unavailable =>
          var n := |svc.sent| - |old(svc.sent)|;
          if n == 3 then r.error.why == GaveUp else n in w.cancelled && r.error.why == Cancelled
    {
      hide Best;
      if !open {
        return Err(ClientClosed);
      }
      if dim == None {
        return Err(KeysNotRegistered);
      }
      if |vec| != dim.value {
        return Err(DimMismatch(|vec|, dim.value));
      }
      if metadata != "" && !w.validJson {
        return Err(InvalidMetadata);
      }
      var unit := L2Normalize(vec, w.root);
      if !w.flatOk {
        return Err(EncryptFailed(true));
      }
      var cs := cache.Get(w.fetch);
      if cs.Err? {
        return Err(CentroidsFailed(cs.error));
      }
      if !Enabled(cs.value) {
        return Err(ClusterRequired);
      }
      if cs.value.dim != |unit| {
        return Err(DimMismatch(|unit|, cs.value.dim));
      }
      if !w.mmOk {
        return Err(EncryptFailed(false));
      }
      var clusterID := Assign(cs.value.vectors, unit);
      AssignedAfterNormalizing(cs.value.vectors, vec, w.root);
      var outcome;
      ghost var n;
      var req := InsertRequest(w.id, Item(unit, metadata, tags), clusterID, cs.value.version);
      outcome, n := InsertWithRetry(svc, req, w.cancelled);
      assert AnswerTo(svc.script, |old(svc.sent)|, n - 1) == AnswerTo(svc.script, |svc.sent| - 1, 0);
      if outcome != Inserted {
        return Err(NotInserted(outcome));
      }
      return Ok(w.id);
    }
  }
}
