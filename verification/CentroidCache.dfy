/** The client's centroid cache: the locked sections that read, fill and drop it. */
module CentroidCache {
  import opened Wrappers
  import opened Centroids

  /** What the fetch outside the lock ends with. */
  datatype Fetch = Set(cs: CentroidSet) | Unimplemented | Failure(msg: string)

  /** The cached set after a fetched one was offered: an already cached set stays. */
  function Committed<T>(cached: Option<T>, fetched: T): T {
    if cached.Some? then cached.value else fetched
  }

  /** The part of the client that holds the cached set; a disabled set is a valid cached value. */
  class Cache {
    var centroids: CentroidSet
    var loaded: bool

    ghost function Contents(): Option<CentroidSet>
      reads this
    {
      if loaded then Some(centroids) else None
    }

    constructor ()
      ensures Contents() == None
    {
      centroids, loaded := EMPTY_SET, false;
    }

    method Invalidate()
      modifies this
      ensures Contents() == None
    {
      centroids, loaded := EMPTY_SET, false;
    }

    /** The first locked section: a hit returns the cached set. */
    method Lookup() returns (hit: Option<CentroidSet>)
      ensures hit == Contents()
    {
      if loaded {
        return Some(centroids);
      }
      return None;
    }

    /** The second locked section: fills an empty cache, else adopts what another caller cached meanwhile. */
    method Commit(fetched: CentroidSet) returns (cs: CentroidSet)
      modifies this
      ensures cs == Committed(old(Contents()), fetched)
      ensures Contents() == Some(cs)
    {
      cs := fetched;
      if !loaded {
        centroids, loaded := cs, true;
      } else {
        cs := centroids;
      }
    }

    /** One call without interference; `fetch` is what the server would answer. */
    method Get(fetch: Fetch) returns (r: Result<CentroidSet, string>)
      modifies this
      ensures old(Contents()).Some? ==> r == Ok(old(Contents()).value)
      ensures old(Contents()).None? ==> r == match fetch
                case Set(cs) => Ok(cs)
                case Unimplemented => Ok(EMPTY_SET)
                case Failure(msg) => Err(msg)
      ensures Contents() == if r.Ok? then Some(r.value) else old(Contents())
    {
      var hit := Lookup();
      if hit.Some? {
        return Ok(hit.value);
      }
      var cs := EMPTY_SET;
      match fetch {
        case Set(fetched) => cs := fetched;
        case Unimplemented =>
        case Failure(msg) => return Err(msg);
      }
      cs := Commit(cs);
      return Ok(cs);
    }
  }
}
