# RuneSpace client: a verified model

RuneSpace is a vector database whose items and scores are encrypted under keys that only the client holds.
This project models the parts of its Go client that carry logic and proves what they guarantee:

- **Search** (`Bitmap`, `Ranking`, `Matching`, `Resolve`, `Search`, `SearchTheorems`). A search decrypts the scores
  of two tiers, drops dead rows by a packed bitmap, ranks the rest, and resolves the ranking to item ids window by
  window, stopping early once topK distinct ids are found. The windowed loop is proved to be a refinement of
  "rank all, resolve all, keep the first occurrence of each id, cut at topK", and its results are proved safe under
  any server replies at all. The number of round trips is bounded by a pigeonhole argument over the 2 * topK window.
- **Insert** (`Vectors`, `Centroids`, `CentroidCache`, `CacheProtocol`, `Retry`, `InsertProtocol`, `InsertTheorems`,
  `InsertRuns`, `RoutingFreshness`, `Insert`). An insert normalizes its vector, routes it against a cached copy of the server's
  centroid set and sends it with bounded retries. `CacheProtocol` and `InsertProtocol` are state machines: any number of callers, fetches
  that race with invalidations, a server that swaps its set, applies an insert and loses the ack, or rejects it, and
  a channel that may delay and repeat requests. Their theorems hold in every run.
- **Key registration** (`KeyStream`, `KeyRegistration`). Two evaluation keys are streamed in frames from one reused
  buffer with an incremental digest. A parser written from the protocol's description reads the stream back, and
  registering and verifying a key set are related by an exact condition.
- **Key bundles and key files** (`BundleProtocol`, `KeyBundle`, `KeyFiles`). Native handles shared by threads under a
  mutex, opening that must not leak at any failure, and a multi-file key generation that undoes itself.

Code that changes state in the repository is imperative here: methods and classes proved against specification
functions, whose properties are the lemmas. The environment (the server, the native library, the file system, the
square root, the hash) is a parameter: a script of answers or faults, or a function about which only its contract is
known. The state machines of the cache and of inserts share their decisions with the sequential code:
`CentroidCache.Committed`, `InsertProtocol.RouteItem` and `Retry.OnAnswer` are the functions that the methods are proved
against. `BundleProtocol` shares with `KeyBundle` only what a handle is and in which order handles are closed.

## Where code and documentation differ

- `InvalidateCentroidCache` is documented to make the next call refetch (clustering.go:117-121). With a fetch in
  flight this is false: `CacheProtocol.OldSetSurvivesInvalidation` is the run, and
  `CacheProtocol.StaleExactlyWhenInFlight` says exactly when stale sets can come back.
- A non-flat `ClusterID` is documented as a cluster id from 0 on (clustering.go:15-18). The conversion to 32 signed
  bits keeps this exactly for cell ids below 2^31 (`Matching.ClusterIdReadable`).
- `VerifyKeys` of a set that was just registered fails when the dimension does not fit the 32-bit header field;
  `KeyRegistration.RegisteredThenVerified` has the exact condition and `KeyRegistration.WideKeySetFails` the set of
  dimension 2^32. The options only ask for a positive dimension (keysoptions.go:72-74), which is passed on as 64 bits;
  whether a set of such a dimension can be opened at all is up to the native context, which is not part of this model.
- `OpenKeys` is documented to return ErrKeysNotFound when a required slot is absent (keys.go:359-364). It does so
  exactly when no earlier step fails (`KeyBundle.OpenKeys`); `KeyBundle.MissingSlotGoesUnreported` is a fault-free case
  in which it reports something else.
- The rollback of `GenerateKeys` is meant to keep a failure from blocking the next attempt (keys.go:269-272). It does
  not know the temporary file of the secret key (internal/crypto/keymanager_shim.cpp:96-118), so when that file can
  neither be put in place nor be removed, the next attempt finds a directory that is not empty.
  `KeyFiles.RetryBlockedByTmp` is the case and `KeyFiles.GenerateAgain` says exactly when it arises.

## Model

| member | source | states |
|---|---|---|
| Bitmap.BitmapAgreement | client.go:617-632 | for every set of dead rows, the client's decoder answers membership for every row, negative ones included, if and only if the server's buffer reaches the highest dead row |
| Ranking.LiveCandsExact | client.go:643-654 | a cell contributes exactly its live rows, in ascending row order, each with its own score |
| Ranking.AppendCands | client.go:643-654 | appends exactly those rows and leaves what was collected before untouched |
| Ranking.SortStableFacts | client.go:529 | the ranking is a permutation, non-increasing in score, and keeps the order within every run of equal scores |
| Ranking.StableSortUnique | client.go:529 | these facts determine the ranking, so any stable descending sort is this one |
| Ranking.SortFlatWinsTies | client.go:514-529 | since flat hits are appended first, no cluster hit is ranked ahead of a flat hit with the same score |
| Matching.ClusterIdReadable | client.go:562-565 | a cluster hit keeps its cell id and stays distinguishable from the flat tier exactly when the cell id is below 2^31 |
| Matching.DedupIsFirstOccurrences | client.go:553-569 | the matches are exactly the first occurrences of the non-empty ids, in rank order |
| Matching.Pigeonhole | client.go:531-540 | if no id occupies more than `most` of n positions, then n is at most `most` times the matches plus the unresolvable positions |
| Resolve.ResolvePositions | client.go:575-618 | one request with each tier's rows in order and the scope of the search; position i gets its own tier's entry of its rank, and stays blank beyond a short reply |
| Resolve.ZipAlignment | client.go:594-616 | against a server that answers each tier in order, possibly cut short, a position gets its own entry exactly when its rank within its tier is below that tier's reply length |
| Resolve.RanksDistinct | client.go:596-611 | no two positions of a tier share a reply entry |
| Search.BatchSizeExact | client.go:531-540 | in spite of 64-bit wrap-around the window is min(2 * topK, n), all of n when topK is not positive, and at least 1 when there are candidates |
| Search.AddWindow | client.go:553-570 | one window adds the first occurrences not matched before, and stops exactly when topK is reached |
| Search.RunWindow | client.go:544-571 | one round trip: what is asked, what is added, and when the loop is left |
| Search.ResolveInWindows | client.go:542-573 | for any window size, the loop ends at the first count of round trips that suffices or fails, having sent exactly those requests |
| Search.StopsUnique | client.go:544-571 | the number of round trips is determined by the replies |
| Search.CollectTier | client.go:515-528 | collects the live rows of a tier cell by cell, or reports the first cell that does not decrypt |
| Search.SearchAndResolve | client.go:504-573 | the whole search ties its result and its requests to the resolve run over all live candidates, every request with the scope of the search; search, decryption and metadata errors end it with nothing further asked |
| SearchTheorems.RunEnds | client.go:544-571 | every run ends, after at most one round trip per candidate |
| SearchTheorems.EveryCellDecrypts | client.go:514-528 | a search gets past decryption exactly when every cell of both tiers decrypts |
| SearchTheorems.UndecryptableCellReported | client.go:514-528 | otherwise it reports the first cell that does not, flat tier first, with its tier and cell id |
| SearchTheorems.MetadataErrorEndsSearch | client.go:544-552 | the search fails exactly when a metadata call fails, with the error of that call, which is the last one |
| SearchTheorems.SafeUnderAnyReplies | client.go:544-571 | whatever the server replies: ids non-empty and pairwise distinct, scores non-increasing, at most topK matches, every match an asked candidate with the entry zipped to it |
| SearchTheorems.MatchesAreLiveRows | client.go:514-571 | whatever the server replies, every match is a live scored row of the Search response, reported with its row, score and tier and with the id and metadata of the reply entry zipped to it |
| SearchTheorems.RankedAreLiveRows | client.go:514-529 | the ranked candidates are exactly the live scored rows of both tiers |
| SearchTheorems.RowsAskedInOrder | client.go:544-552 | the requests of a run, strung together, list the rows of the ranked candidates in order |
| SearchTheorems.NoRowAskedTwice | client.go:544-552 | no position is asked about twice in a run, whatever the replies |
| SearchTheorems.ResponsePositionsDistinct | proto/runespace/v1/runespace.proto:285-291 | a response that reports each cell of a tier once addresses each position once |
| SearchTheorems.WindowsRefine | client.go:535-571 | with any window size, if positions resolve the same way throughout, the windowed run returns what resolving everything first would |
| SearchTheorems.SearchRefines | client.go:504-573 | the search with its own window returns the first topK of "rank, resolve all, drop empty ids, keep first occurrences", for every topK |
| SearchTheorems.SearchReturnsSimple | client.go:504-573 | the same from the Search response on, with a round trip made exactly when there is a live candidate |
| SearchTheorems.PrefixMonotone | client.go:535-571 | the result for a smaller topK is a prefix of the result for a larger or unlimited one, although the windows differ |
| SearchTheorems.RoundTrips | client.go:531-571 | c round trips satisfy (c - 1) * 2 * topK <= d + 2 * topK - 2, with d the unresolvable positions asked |
| SearchTheorems.RoundTripBound | client.go:531-571 | with each id at no more than two positions and d unresolvable ones, at most 1 + ceil(d / (2 * topK)) round trips, and exactly one when d is at most 1 |
| SearchTheorems.BestScore | client.go:550-566 | each returned match is the best-scored candidate of its id, from the flat tier if a flat one scores as much |
| SearchTheorems.FlatTierReported | client.go:514-566 | an id served by both tiers at the same score is reported from the flat tier |
| SearchTheorems.LeftOutScoresLower | client.go:550-571 | a resolvable candidate whose id is not returned scores no more than any match, and then topK matches are returned |
| Vectors.L2Normalize | clustering.go:97-115 | the two loops compute the scaled vector; a zero vector comes back unchanged |
| Vectors.UnitLength | clustering.go:97-100 | a normalized non-zero vector has length one and scores one against itself |
| Vectors.CosineRange | clustering.go:97-100 | scores of unit vectors lie between -1 and 1 (Cauchy-Schwarz) |
| Vectors.Assign | clustering.go:82-95 | the scan returns the index specified by `Assigned`, narrowed to 32 bits |
| Vectors.AssignedIsLowestArgmax | clustering.go:78-81 | an index is the assignment if and only if it maximizes the inner product and is the lowest such index |
| Vectors.AssignedAfterNormalizing | clustering.go:82-115 | a vector and its normalized form are assigned to the same cluster |
| Centroids.ReadCentroidSet | clustering.go:46-70 | the receive loop assembles exactly what the frames describe, or reports the stream's error |
| Centroids.AssembleFrames | clustering.go:56-68 | whatever came before, a header takes over version, dimension and preset and starts the list over exactly when it announces centroids; batches are appended in arrival order |
| Centroids.BlankIgnored | clustering.go:56-68 | a frame without payload changes nothing |
| Centroids.BatchingIndependent | clustering.go:41-70 | for every split of an id-ordered set into batches, index i holds the vector of cluster i and routing picks the original lowest-index argmax |
| CentroidCache.Cache.Lookup | clustering.go:135-141 | a hit returns the cached set |
| CentroidCache.Cache.Invalidate | clustering.go:122-126 | empties the cache |
| CentroidCache.Cache.Commit | clustering.go:155-162 | fills an empty cache, else keeps and returns what is cached |
| CentroidCache.Cache.Get | clustering.go:134-163 | a hit wins; otherwise the fetched set, or a disabled one for an old server, is cached and returned; any other failure leaves the cache as it was |
| CacheProtocol.ReturnsAgreeWithinEpoch | clustering.go:128-133 | in every run, two calls return different sets only if an invalidation lies between them |
| CacheProtocol.WriteOncePerEpoch | clustering.go:155-160 | once filled, the cache changes only after an invalidation |
| CacheProtocol.ReturnsCacheContent | clustering.go:134-163 | a call returns the cache content of its hit or commit step; only commits and invalidations touch the cache |
| CacheProtocol.EverySetWasAnswered | clustering.go:143-153 | in every run, whatever is cached, held or returned goes back to the server's answer at its time stamp, as the set it then had, or to its lack of a clustered tier; nothing comes out of a failed fetch |
| CacheProtocol.StaysFresh | clustering.go:117-163 | if nothing older than a moment is cached or in flight, every later return was answered after that moment |
| CacheProtocol.StaleExactlyWhenInFlight | clustering.go:117-163 | right after an invalidation, some continuation returns a set answered before it if and only if some caller holds an answer it has not committed |
| CacheProtocol.OldSetSurvivesInvalidation | clustering.go:117-121 | the documented "the next call refetches" fails: a run of two callers in which the second call after the invalidation returns the old set |
| Retry.InsertWithRetry | client.go:434-461 | one to three sends of the unchanged request, a further one only after UNAVAILABLE and an unexpired context; each answer has its own outcome |
| InsertProtocol.AllRoutedStep | client.go:407-421 | every step of every insert, fetch, swap and invalidation keeps routing coherent |
| InsertTheorems.RequestsCoherent | client.go:407-421 | in every run, each request sent carries the lowest-index argmax over a set the server has had, under that set's version, which with content-hash versions is the only set of that version |
| InsertTheorems.StoredInRightCluster | proto/runespace/v1/runespace.proto:38-48 | an item enters the store only in the cluster that the server's set at that moment assigns to it |
| InsertTheorems.AtMostOnce | client.go:434-461 | in every run with lost acks, delays and repeats: existing items untouched, each new id stored with the one payload ever sent for it, success implies stored, at most three sends |
| InsertTheorems.StoredForever | proto/runespace/v1/runespace.proto:157-160 | a stored item never changes |
| InsertRuns.StoredAsGiven | client.go:407-430 | in every run, a newly stored item is the one that the insert of its id was begun with |
| InsertRuns.BeganOnce | client.go:405-406 | an id is begun at most once in a run |
| InsertRuns.LostAckRun | client.go:434-461 | an insert whose first ack is lost sends the same request twice, is stored once, and reports success |
| InsertRuns.CancelledBetweenAttempts | client.go:439-446 | in every run, a context that ends stops an insert only after an attempt and before the next |
| InsertTheorems.EndedForever | client.go:439-459 | once an insert has ended, its request is never sent again and its outcome stands |
| InsertTheorems.RetriedOnlyWhenUnavailable | client.go:447-461 | in every run, an insert goes on exactly when it is answered UNAVAILABLE with fewer than three sends; a mismatch or any other answer ends it for good, with its own outcome and no further send in any continuation |
| RoutingFreshness.RoutedFreshAfterInvalidation | clustering.go:117-163 | if no answer is in flight at an invalidation, every request of an insert begun later is routed by a set that the server had at the invalidation or after, in every continuation |
| Insert.Client.Insert | client.go:376-430 | everything sent carries the fresh id, the unit vector and the lowest-index argmax over the set now cached under its version; each error has its condition and sends nothing; success means an acknowledged last attempt, and a failed insert names the reason that the last answer gave |
| KeyStream.DataFramesSized | client.go:321-330 | no data frame is empty or larger than 2^20 bytes |
| KeyStream.SendChunks | client.go:319-337 | for every legal sequence of short reads, the frames and the digest input are the file's bytes in spite of the reused buffer; success exactly when the file ends regularly and every send works |
| KeyStream.StreamEvalKey | client.go:303-341 | one key on the wire is header, data, footer over all data; a failure leaves a proper prefix, never a footer |
| KeyRegistration.FeedsKey | proto/runespace/v1/runespace.proto:118-143 | the server reads one key's frames back as its header and bytes, unless the announced length is wrong |
| KeyRegistration.StreamRoundTrip | client.go:192-214 | for every way of reading the two files, the server recovers both headers and byte strings exactly if both announced lengths are right, and registers nothing otherwise |
| KeyRegistration.FeedsFramed | proto/runespace/v1/runespace.proto:118-143 | one key is accepted exactly when the announced length and the digest in its footer are those of its data |
| KeyRegistration.BrokenStreamRejected | proto/runespace/v1/runespace.proto:118-143 | a stream that breaks off anywhere before its last footer registers nothing |
| KeyRegistration.KeyHolder.RegisterKeys | client.go:187-214 | the server records both keys with their identities and contents exactly when both files are whole and every frame is sent, and else nothing; the call succeeds, and binds the set, exactly when moreover the server's answer arrives |
| KeyRegistration.VerifyKeys | client.go:234-273 | succeeds exactly when the registered list is non-empty, both key files are readable and every entry agrees with the local key of its kind, absent fingerprints skipped; otherwise reports an empty list, the first unreadable file, or the first entry that disagrees and whether by its kind, its identity or its key |
| KeyRegistration.RegisteredThenVerified | client.go:187-301 | verification of what an accepted stream left on the server succeeds exactly when the dimension fits 32 bits and the digests of the files are unchanged, in either flat mode, and otherwise names the first of these that fails |
| KeyRegistration.WideKeySetFails | client.go:293-301 | a set of dimension 2^32 is registered and then fails verification with its files unchanged |
| BundleProtocol.OneCallOnAnOpenHandle | keys.go:64-73 | in every interleaving at most one native call runs on a bundle, on a handle that is open and not yet closed; meanwhile the shared context is held and open, and no Close can proceed |
| BundleProtocol.ClosedOnceInOrder | keys.go:75-93 | however many Closes run, nothing is closed twice, the decryptor is closed only after the encryptor and the context only after both, and the rest is still held |
| BundleProtocol.CloseCompletes | keys.go:75-93 | the end of a Close leaves every handle the bundle was opened with closed |
| BundleProtocol.AfterClose | keys.go:117-187 | after a Close every operation, waiting ones included, returns the guard error, no native call starts, and further Closes change nothing |
| BundleProtocol.GuardedExactlyWhenGone | keys.go:117-177 | an operation is turned away exactly when its handle was not loaded or is closed; otherwise it calls the handle the bundle was opened with |
| BundleProtocol.EachOperationItsHandle | keys.go:117-177 | an encryption calls the encryptor and a decryption the decryptor that the bundle was opened with, unless it was not loaded or is closed |
| BundleProtocol.OperationRuns | keys.go:117-177 | an undisturbed operation is served exactly when its handle is loaded, and leaves the bundle as it was |
| BundleProtocol.CloseRuns | keys.go:75-93 | an undisturbed Close closes everything |
| KeyBundle.Bundle.Close | keys.go:75-93 | closes exactly the held handles, encryptor and decryptor before the context |
| KeyBundle.EnvelopeWins | keys.go:189-201 | when the envelope of a slot is there, its key counts, whatever raw file lies beside it |
| KeyBundle.RawKeysOpen | keys.go:359-364 | a set of raw files without envelopes opens with exactly these keys |
| KeyBundle.Materialise | keys.go:397-413 | stages a slot as a raw file from either format; a missing slot is told apart from a failing one |
| KeyBundle.AddEncryptor | keys.go:439-447 | one encryptor on the bundle's context with the staged key, or the context is closed |
| KeyBundle.AddDecryptor | keys.go:448-456 | one decryptor on the bundle's context with the staged key, or the bundle is closed |
| KeyBundle.Build | keys.go:428-460 | native objects over one context with the staged keys; a failure at any call closes exactly what was built, newest first |
| KeyBundle.OpenBundle | keys.go:382-461 | staging directories are always restored; success exactly when the wanted slots hold their keys and no call fails; any failure leaves the open native objects as they were |
| KeyBundle.OpenKeys | keys.go:359-380 | both tiers or neither, without a leak at any fault point; exactly when ErrKeysNotFound is returned |
| KeyBundle.MissingSlotGoesUnreported | keys.go:359-364 | a fault-free case in which a wanted slot is absent and the error is another one |
| KeyBundle.Keys.Close | keys.go:179-187 | closes both tiers' handles in order; a second call closes nothing |
| KeyBundle.GenerateThenOpen | keys.go:246-258 | after a successful generation, opening succeeds exactly when the native calls work, for every choice of parts, with every coder holding the key of that run and tier |
| KeyFiles.SlotsAreTheSixNames | keys.go:231-243 | the overwrite guard sees exactly the six key file names |
| KeyFiles.WrapSecKey | internal/crypto/keymanager_shim.cpp:88-122 | the envelope appears as a whole or not at all; the temporary file is gone afterwards unless its removal fails too |
| KeyFiles.Generate | internal/crypto/cryptocgo.go:285-374 | succeeds exactly in an empty directory with no failing step; besides key slot files of its own tier only the stuck temporary file can stay |
| KeyFiles.WrapEncKey | keys.go:340-355 | the raw encryption key is replaced by its envelope, and no file but these two is touched |
| KeyFiles.GenerateBundle | keys.go:308-357 | success leaves exactly the enveloped encryption and secret keys and the raw evaluation key |
| KeyFiles.RemoveKeyArtifacts | keys.go:297-306 | removes the six slot files and no other file |
| KeyFiles.GenerateKeys | keys.go:246-295 | an existing set is reported and untouched; after a failure at any one step, clean or torn, the files are exactly those from before, and a directory remains only if it holds some; only a second failure, in removing a temporary file, leaves that file; success exactly when both directories held nothing and no step fails |
| KeyFiles.GenerateAgain | keys.go:269-272 | after a generation with one failing step neither guard blocks a second one, which succeeds exactly when its own steps work and the directories held no foreign files; in general it is blocked only by a stuck temporary file |
| KeyFiles.RetryBlockedByTmp | keys.go:269-272 | a fresh key path on which the first generation fails and the second one, whose steps all work, meets a directory that is not empty |

## Left out

- Floating point: vectors and scores are reals, so rounding, NaN and infinities do not occur; the -infinity that the assignment scan starts from is "no score yet", and `sqrt` is any exact root.
- The library's sort is a function that is proved to be the only stable descending sort; its algorithm is not modelled.
- Cursor arithmetic of the window loop is unbounded: a slice has fewer than 2^63 elements. Only topK * 2 wraps. The rows of candidates are naturals.
- The `seen` map, whose values carry nothing, is a set; growing slices are sequences, without capacity or aliasing.
- Decryption of a cell is given with the cell, as scores or an error; encryption is opaque, so an item on the wire is its unit vector, metadata and tags.
- Insert.Client.Insert: it runs without interference inside one method; the interleavings of its steps with other callers are the subject of `InsertProtocol`. Validity of JSON, success of encryption and the fresh id are parameters.
- InsertTheorems.AtMostOnce: ids are fresh by assumption; deletes of the same id, and a caller's own retry after an error, are not modelled. A server whose current version differs from a request's rejects it.
- The fetch of a centroid set in the protocols is one answer of the server; the frames of the stream are modelled in `Centroids` only.
- The retry loop's waiting times, and a context that ends during a call rather than between attempts.
- SHA-256 is any function of the hashed bytes; `KeyRegistration.RegisteredThenVerified` only needs that digests are not empty. Hash collisions therefore count as agreement.
- KeyStream.SendChunks: the outgoing stream fails by refusing frames past some capacity; sends that fail and are followed by working ones do not occur, since the client stops at the first failure.
- Unwrapping an enveloped evaluation key to a temporary file before streaming it, and releasing the reader.
- KeyFiles.GenerateKeys: removals inside the rollback always work, as its best-effort design presumes, and it takes away a directory that was there before and was empty, as the source says; the key root directory above the tier directories is not modelled.
- KeyFiles.GenerateAgain, KeyFiles.RetryBlockedByTmp, KeyBundle.GenerateThenOpen, KeyBundle.MissingSlotGoesUnreported: compose calls of the source's functions and have no counterpart of their own there.
- KeyBundle.OpenKeys: which of the staging failures occurred (unwrap or copy) is one error value; each native close works.
- The encrypt and decrypt operations of an open key set appear in `BundleProtocol` only, as locked native calls without their data.
- Finalizers, OS-thread pinning, and the per-object locks inside encryptor and decryptor, which guard against finalizers.
- Nil receivers and nil bundles, connection handling, and the mutex around the client's own fields.
- `Delete`, `UpdateTags`, `RetagAll`, `RemoveTag`, `Info`, option parsing, `KeysExist`, pre-encrypted inserts and their validation: thin wrappers and single-branch checks without state of their own.
- gRPC, TLS, interceptors, generated protobuf code, the C++ library and its shims, and the server's internals beyond the documented protocol.
