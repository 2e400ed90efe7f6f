/** The server's reading of a key stream, registration of a key set, and the later check of what the server
    recorded against the local keys. */
module KeyRegistration {
  import opened Wrappers
  import opened KeyStream

  // ---- the server's side, after the protocol's description ----

  datatype Record = Record(hdr: KeyHeader, data: Bytes)

  datatype Parser =
    | Between(done: seq<Record>)
    | InKey(done: seq<Record>, hdr: KeyHeader, data: Bytes)
    | Rejected

  /** One key is one header, its data in order, then one footer whose digest and length must agree. */
  function Feed(p: Parser, f: Frame, hash: Hash): Parser {
    match (p, f)
    case (Between(done), Header(hdr)) => InKey(done, hdr, [])
    case (InKey(done, hdr, data), Data(bytes)) => InKey(done, hdr, data + bytes)
    case (InKey(done, hdr, data), Footer(sha)) =>
      if |data| == hdr.totalLen && sha == hash(data) then Between(done + [Record(hdr, data)]) else Rejected
    case _ => Rejected
  }

  function Feeds(p: Parser, frames: seq<Frame>, hash: Hash): Parser {
    if frames == [] then p else Feed(Feeds(p, frames[..|frames| - 1], hash), frames[|frames| - 1], hash)
  }

  /** What the server records when the client closes the stream: both keys, or nothing. */
  function Closed(p: Parser): Option<seq<Record>> {
    match p
    case Between(done) =>
      if |done| == 2 && done[0].hdr.kind == RmpEval && done[1].hdr.kind == MmEval then Some(done) else None
    case _ => None
  }

  function Accepted(frames: seq<Frame>, hash: Hash): Option<seq<Record>> {
    Closed(Feeds(Between([]), frames, hash))
  }

  lemma ClosedRejected()
    ensures Closed(Rejected) == None
  {
  }

  lemma ClosedBoth(a: Record, b: Record)
    requires a.hdr.kind == RmpEval && b.hdr.kind == MmEval
    ensures Closed(Between([a] + [b])) == Some([a, b])
  {
    assert [a] + [b] == [a, b];
  }

  lemma {:induction false} FeedsAppend(p: Parser, a: seq<Frame>, b: seq<Frame>, hash: Hash)
    ensures Feeds(p, a + b, hash) == Feeds(Feeds(p, a, hash), b, hash)
  {
    if b == [] {
      assert a + b == a;
    } else {
      FeedsAppend(p, a, b[..|b| - 1], hash);
      assert (a + b)[..|a + b| - 1] == a + b[..|b| - 1];
    }
  }

  lemma FeedsNothing(p: Parser, hash: Hash)
    ensures Feeds(p, [], hash) == p
  {
  }

  lemma FeedsOne(p: Parser, f: Frame, hash: Hash)
    ensures Feeds(p, [f], hash) == Feed(p, f, hash)
  {
    assert [f][..0] == [];
  }

  /** One more read: sent as a frame when it is not empty, without effect on the server's bytes otherwise. */
  lemma FeedsRead(p: Parser, pieces: seq<Read>, n: nat, done: seq<Record>, hdr: KeyHeader, hash: Hash)
    requires n < |pieces| && Feeds(p, DataFrames(pieces, n), hash) == InKey(done, hdr, Content(pieces, n))
    ensures Feeds(p, DataFrames(pieces, n + 1), hash) == InKey(done, hdr, Content(pieces, n + 1))
  {
    hide Feeds;
    var data, sent, got := pieces[n].data, DataFrames(pieces, n), Content(pieces, n);
    if data == [] {
      assert got + data == got;
      assert sent + [] == sent;
    } else {
      FeedsAppend(p, sent, [Data(data)], hash);
      FeedsOne(InKey(done, hdr, got), Data(data), hash);
    }
  }

  lemma {:induction false} FeedsData(done: seq<Record>, hdr: KeyHeader, pieces: seq<Read>, n: nat, hash: Hash)
    requires n <= |pieces|
    ensures Feeds(InKey(done, hdr, []), DataFrames(pieces, n), hash) == InKey(done, hdr, Content(pieces, n))
  {
    hide Feeds;
    if n == 0 {
      FeedsNothing(InKey(done, hdr, []), hash);
    } else {
      FeedsData(done, hdr, pieces, n - 1, hash);
      FeedsRead(InKey(done, hdr, []), pieces, n - 1, done, hdr, hash);
    }
  }

  /** Header, data and any footer are read back as one key exactly when the announced length and the digest in the
      footer are those of the data. */
  lemma FeedsFramed(done: seq<Record>, hdr: KeyHeader, pieces: seq<Read>, sha: Bytes, hash: Hash)
    ensures var data := Content(pieces, |pieces|);
      Feeds(Between(done), [Header(hdr)] + DataFrames(pieces, |pieces|) + [Footer(sha)], hash)
      == if |data| == hdr.totalLen && sha == hash(data) then Between(done + [Record(hdr, data)]) else Rejected
  {
    hide Feeds, Content, DataFrames;
    var p, data, chunks := Between(done), Content(pieces, |pieces|), DataFrames(pieces, |pieces|);
    FeedsAppend(p, [Header(hdr)] + chunks, [Footer(sha)], hash);
    FeedsAppend(p, [Header(hdr)], chunks, hash);
    FeedsOne(p, Header(hdr), hash);
    FeedsData(done, hdr, pieces, |pieces|, hash);
    FeedsOne(InKey(done, hdr, data), Footer(sha), hash);
  }

  /** One key's frames are read back as its header and bytes, however the file was read, unless the announced
      length is wrong. */
  lemma FeedsKey(done: seq<Record>, hdr: KeyHeader, pieces: seq<Read>, hash: Hash)
    ensures var data := Content(pieces, |pieces|);
      Feeds(Between(done), KeyFrames(hdr, pieces, hash), hash)
      == if |data| == hdr.totalLen then Between(done + [Record(hdr, data)]) else Rejected
  {
    hide Feeds, Content, DataFrames;
    FeedsFramed(done, hdr, pieces, hash(Content(pieces, |pieces|)), hash);
  }

  lemma {:induction false} RejectedStays(frames: seq<Frame>, hash: Hash)
    ensures Feeds(Rejected, frames, hash) == Rejected
  {
    if frames != [] {
      RejectedStays(frames[..|frames| - 1], hash);
    }
  }

  lemma {:induction false} FeedsBoth(rmp: KeyHeader, rmpPieces: seq<Read>,
                                     mm: KeyHeader, mmPieces: seq<Read>, hash: Hash)
    ensures var a, b := Content(rmpPieces, |rmpPieces|), Content(mmPieces, |mmPieces|);
      Feeds(Between([]), KeyFrames(rmp, rmpPieces, hash) + KeyFrames(mm, mmPieces, hash), hash)
      == if |a| == rmp.totalLen && |b| == mm.totalLen then Between([Record(rmp, a)] + [Record(mm, b)]) else Rejected
  {
    hide Feeds, Feed, Content, KeyFrames;
    var first, second := KeyFrames(rmp, rmpPieces, hash), KeyFrames(mm, mmPieces, hash);
    var done := [Record(rmp, Content(rmpPieces, |rmpPieces|))];
    FeedsAppend(Between([]), first, second, hash);
    FeedsKey([], rmp, rmpPieces, hash);
    assert [] + done == done;
    if |Content(rmpPieces, |rmpPieces|)| == rmp.totalLen {
      FeedsKey(done, mm, mmPieces, hash);
    } else {
      RejectedStays(second, hash);
    }
  }

  /** Round trip of the whole stream: for every way of reading the two files, the server recovers both headers and
      byte strings exactly if both announced lengths are right, and registers nothing otherwise. */
  lemma {:induction false} StreamRoundTrip(rmp: KeyHeader, rmpPieces: seq<Read>,
                                           mm: KeyHeader, mmPieces: seq<Read>, hash: Hash)
    requires rmp.kind == RmpEval && mm.kind == MmEval
    ensures var a, b := Content(rmpPieces, |rmpPieces|), Content(mmPieces, |mmPieces|);
      Accepted(KeyFrames(rmp, rmpPieces, hash) + KeyFrames(mm, mmPieces, hash), hash)
      == if |a| == rmp.totalLen && |b| == mm.totalLen then Some([Record(rmp, a), Record(mm, b)]) else None
  {
    hide Feeds, Content, KeyFrames, Closed;
    ClosedBoth(Record(rmp, Content(rmpPieces, |rmpPieces|)), Record(mm, Content(mmPieces, |mmPieces|)));
    assert Closed(Rejected) == None by { ClosedRejected(); }
    FeedsBoth(rmp, rmpPieces, mm, mmPieces, hash);
  }

  // ---- what the server makes of a broken stream ----

  /** How many keys the frames complete. */
  function Footers(frames: seq<Frame>): nat {
    if frames == [] then 0
    else Footers(frames[..|frames| - 1]) + (if frames[|frames| - 1].Footer? then 1 else 0)
  }

  lemma {:induction false} FootersAppend(a: seq<Frame>, b: seq<Frame>)
    ensures Footers(a + b) == Footers(a) + Footers(b)
  {
    if b == [] {
      assert a + b == a;
    } else {
      FootersAppend(a, b[..|b| - 1]);
      assert (a + b)[..|a + b| - 1] == a + b[..|b| - 1];
    }
  }

  /** The server has recorded one key per footer. */
  lemma {:induction false} DonePerFooter(frames: seq<Frame>, hash: Hash)
    ensures match Feeds(Between([]), frames, hash)
      case Between(done) => |done| == Footers(frames)
      case InKey(done, _, _) => |done| == Footers(frames)
      case Rejected => true
  {
    if frames != [] {
      DonePerFooter(frames[..|frames| - 1], hash);
    }
  }

  lemma {:induction false} NoFooterInData(pieces: seq<Read>, n: nat)
    requires n <= |pieces|
    ensures Footers(DataFrames(pieces, n)) == 0
  {
    if n > 0 {
      NoFooterInData(pieces, n - 1);
      FootersAppend(DataFrames(pieces, n - 1), if pieces[n - 1].data == [] then [] else [Data(pieces[n - 1].data)]);
    }
  }

  lemma OneFooterPerKey(hdr: KeyHeader, pieces: seq<Read>, hash: Hash)
    ensures Footers(KeyFrames(hdr, pieces, hash)) == 1
  {
    var footer := Footer(hash(Content(pieces, |pieces|)));
    NoFooterInData(pieces, |pieces|);
    FootersAppend([Header(hdr)], DataFrames(pieces, |pieces|));
    FootersAppend([Header(hdr)] + DataFrames(pieces, |pieces|), [footer]);
    assert Footers([footer]) == 1 && Footers([Header(hdr)]) == 0;
  }

  lemma EndsInFooter(hdr: KeyHeader, pieces: seq<Read>, hash: Hash)
    ensures KeyFrames(hdr, pieces, hash) != []
    ensures KeyFrames(hdr, pieces, hash)[|KeyFrames(hdr, pieces, hash)| - 1].Footer?
  {
  }

  /** A stream that breaks off anywhere before its last footer registers nothing. */
  lemma BrokenStreamRejected(sent: seq<Frame>, rmp: KeyHeader, rmpPieces: seq<Read>,
                             mm: KeyHeader, mmPieces: seq<Read>, hash: Hash)
    requires sent < KeyFrames(rmp, rmpPieces, hash) + KeyFrames(mm, mmPieces, hash)
    ensures Accepted(sent, hash) == None
  {
    hide Feeds, KeyFrames, Content, DataFrames;
    var first, second := KeyFrames(rmp, rmpPieces, hash), KeyFrames(mm, mmPieces, hash);
    OneFooterPerKey(rmp, rmpPieces, hash);
    OneFooterPerKey(mm, mmPieces, hash);
    FootersAppend(first, second);
    EndsInFooter(mm, mmPieces, hash);
    var all, rest := first + second, (first + second)[|sent|..];
    assert all == sent + rest && rest[|rest| - 1].Footer?;
    FootersAppend(sent, rest);
    DonePerFooter(sent, hash);
  }

  // ---- the local key set ----

  /** One tier's bundle; `file` is the raw evaluation key on disk. */
  datatype Bundle = Bundle(name: string, preset: string, evalMode: string, file: Result<Bytes, string>)

  datatype Keys = Keys(id: string, dim: int, rmp: Bundle, mm: Bundle)

  /** The flat tier's bundle in its default or single mode. */
  function RmpBundle(single: bool, file: Result<Bytes, string>): Bundle {
    Bundle("rmp", "ip0", if single then "flat" else "rmp", file)
  }

  function MmBundle(file: Result<Bytes, string>): Bundle {
    Bundle("mm", "ip1", "mm", file)
  }

  predicate WellFormed(keys: Keys) {
    && (keys.rmp == RmpBundle(true, keys.rmp.file) || keys.rmp == RmpBundle(false, keys.rmp.file))
    && keys.mm == MmBundle(keys.mm.file)
  }

  function HeaderFor(keys: Keys, b: Bundle, kind: KeyKind): KeyHeader {
    KeyHeader(kind, 0, keys.id, b.preset, ToUInt32(keys.dim), b.evalMode)
  }

  /** An evaluation key file that can be opened, is read to its regular end, and is as long as announced. */
  ghost predicate Whole(source: Result<Reader, string>, size: nat)
    requires source.Ok? ==> Legal(source.value.pieces)
  {
    && source.Ok?
    && var pieces := source.value.pieces;
       pieces[|pieces| - 1].status == Eof && |Content(pieces, |pieces|)| == size
  }

  function RmpHeader(keys: Keys, size: nat): KeyHeader {
    HeaderFor(keys, keys.rmp, RmpEval).(totalLen := size)
  }

  function MmHeader(keys: Keys, size: nat): KeyHeader {
    HeaderFor(keys, keys.mm, MmEval).(totalLen := size)
  }

  /** What the headers of a key set say. */
  lemma HeaderFields(keys: Keys, single: bool, size: nat)
    requires keys.rmp == RmpBundle(single, keys.rmp.file) && keys.mm == MmBundle(keys.mm.file)
    requires 0 <= keys.dim < 0x1_0000_0000
    ensures RmpHeader(keys, size)
         == KeyHeader(RmpEval, size, keys.id, "ip0", keys.dim, if single then "flat" else "rmp")
    ensures MmHeader(keys, size) == KeyHeader(MmEval, size, keys.id, "ip1", keys.dim, "mm")
  {
  }

  /** Both keys of a set on the wire. */
  function BothFrames(keys: Keys, rmp: seq<Read>, rmpSize: nat, mm: seq<Read>, mmSize: nat, hash: Hash): seq<Frame> {
    KeyFrames(RmpHeader(keys, rmpSize), rmp, hash) + KeyFrames(MmHeader(keys, mmSize), mm, hash)
  }

  /** What the server records of both keys. */
  function BothRecords(keys: Keys, rmp: seq<Read>, rmpSize: nat, mm: seq<Read>, mmSize: nat): seq<Record> {
    [Record(RmpHeader(keys, rmpSize), Content(rmp, |rmp|)), Record(MmHeader(keys, mmSize), Content(mm, |mm|))]
  }

  lemma BothAccepted(keys: Keys, rmp: seq<Read>, rmpSize: nat, mm: seq<Read>, mmSize: nat, hash: Hash)
    ensures Accepted(BothFrames(keys, rmp, rmpSize, mm, mmSize, hash), hash)
         == if |Content(rmp, |rmp|)| == rmpSize && |Content(mm, |mm|)| == mmSize
            then Some(BothRecords(keys, rmp, rmpSize, mm, mmSize)) else None
  {
    hide Accepted, KeyFrames, Content;
    StreamRoundTrip(RmpHeader(keys, rmpSize), rmp, MmHeader(keys, mmSize), mm, hash);
  }

  lemma BrokenOffRejected(sent: seq<Frame>, keys: Keys, rmp: seq<Read>, rmpSize: nat, mm: seq<Read>, mmSize: nat,
                          hash: Hash)
    requires sent < BothFrames(keys, rmp, rmpSize, mm, mmSize, hash)
    ensures Accepted(sent, hash) == None
  {
    hide Accepted, KeyFrames;
    BrokenStreamRejected(sent, RmpHeader(keys, rmpSize), rmp, MmHeader(keys, mmSize), mm, hash);
  }

  /** The client's binding of a key set. */
  class KeyHolder {
    var keys: Option<Keys>

    constructor ()
      ensures keys == None
    {
      keys := None;
    }

    /** Uploads both keys on a new stream and binds the set only once the server has answered that it accepted
        them; `answered` is whether its answer gets through. The server records both keys, with their identities
        and contents, exactly when both files are whole and the stream takes every frame, and otherwise nothing. */
    method RegisterKeys(bundle: Keys, out: Stream, rmp: Result<Reader, string>, rmpSize: nat,
                        mm: Result<Reader, string>, mmSize: nat, hash: Hash, answered: bool)
      returns (r: Result<(), string>, ghost whole: bool)
      requires out.frames == []
      requires rmp.Ok? ==> Legal(rmp.value.pieces) && rmp.value.pos == 0
      requires mm.Ok? ==> Legal(mm.value.pieces) && mm.value.pos == 0
      requires rmp.Ok? && mm.Ok? ==> rmp.value != mm.value
      modifies this, out, if rmp.Ok? then {rmp.value} else {}, if mm.Ok? then {mm.value} else {}
      ensures whole <==>
        && Whole(rmp, rmpSize) && Whole(mm, mmSize)
        && |BothFrames(bundle, rmp.value.pieces, rmpSize, mm.value.pieces, mmSize, hash)| <= out.capacity
      ensures r.Ok? <==> whole && answered
      ensures keys == if r.Ok? then Some(bundle) else old(keys)
      ensures Accepted(out.frames, hash)
           == if whole then Some(BothRecords(bundle, rmp.value.pieces, rmpSize, mm.value.pieces, mmSize)) else None
    {
      hide Accepted, KeyFrames, Content, Legal;
      whole := false;
      ghost var a := if rmp.Ok? then rmp.value.pieces else [];
      ghost var b := if mm.Ok? then mm.value.pieces else [];
      r := StreamEvalKey(out, HeaderFor(bundle, bundle.rmp, RmpEval), rmp, rmpSize, hash);
      ghost var first := KeyFrames(RmpHeader(bundle, rmpSize), a, hash);
      ghost var second := KeyFrames(MmHeader(bundle, mmSize), b, hash);
      EndsInFooter(MmHeader(bundle, mmSize), b, hash);
      if r.Err? {
        EndsInFooter(RmpHeader(bundle, rmpSize), a, hash);
        assert out.frames < first;
        BrokenOffRejected(out.frames, bundle, a, rmpSize, b, mmSize, hash);
        return;
      }
      r := StreamEvalKey(out, HeaderFor(bundle, bundle.mm, MmEval), mm, mmSize, hash);
      if r.Err? {
        assert out.frames < first + second;
        BrokenOffRejected(out.frames, bundle, a, rmpSize, b, mmSize, hash);
        return;
      }
      assert out.frames == first + second;
      BothAccepted(bundle, a, rmpSize, b, mmSize, hash);
      var accepted := Accepted(out.frames, hash);
      whole := accepted.Some?;
      if accepted.None? || !answered {
        return Err("close"), whole;
      }
      keys := Some(bundle);
      return Ok(()), whole;
    }
  }

  // ---- verification against the server's records ----

  /** What the server reports about one registered key. */
  datatype KeyMeta =
    KeyMeta(kind: KeyKind, kid: string, preset: string, dim: UInt32, evalMode: string, fingerprint: Bytes)

  function MetaOf(rec: Record, hash: Hash): KeyMeta {
    KeyMeta(rec.hdr.kind, rec.hdr.kid, rec.hdr.preset, rec.hdr.dim, rec.hdr.evalMode, hash(rec.data))
  }

  function KindName(kind: KeyKind): string {
    match kind
    case RmpEval => "rmp"
    case MmEval => "mm"
    case Unspecified => "unknown"
  }

  datatype VerifyError =
    | NoRegisteredKeys
    | FingerprintFailed(name: string)
    | NotInLocalSet(name: string)
    | IdentityMismatch(name: string)
    | FingerprintMismatch(name: string)

  /** What the client compares: its own description of one key. */
  datatype Local = Local(kid: string, preset: string, dim: int, evalMode: string, fingerprint: Bytes)

  function LocalOf(keys: Keys, b: Bundle, hash: Hash): Local
    requires b.file.Ok?
  {
    Local(keys.id, b.preset, keys.dim, b.evalMode, hash(b.file.value))
  }

  /** The server's record names the key set, parameters and dimension of the local key of its kind. */
  predicate SameIdentity(keys: Keys, meta: KeyMeta) {
    var b := if meta.kind == RmpEval then keys.rmp else keys.mm;
    meta.kid == keys.id && meta.preset == b.preset && meta.dim == keys.dim && meta.evalMode == b.evalMode
  }

  /** The server's record has the digest of the local key of its kind, or none, which is not compared. */
  predicate SameKey(keys: Keys, meta: KeyMeta, hash: Hash)
    requires keys.rmp.file.Ok? && keys.mm.file.Ok?
  {
    var b := if meta.kind == RmpEval then keys.rmp else keys.mm;
    meta.fingerprint == [] || meta.fingerprint == hash(b.file.value)
  }

  /** The server's record of a key agrees with the local key of its kind. */
  ghost predicate Agrees(keys: Keys, meta: KeyMeta, hash: Hash)
    requires keys.rmp.file.Ok? && keys.mm.file.Ok?
  {
    meta.kind != Unspecified && SameIdentity(keys, meta) && SameKey(keys, meta, hash)
  }

  predicate Named(kind: KeyKind, name: string) {
    (kind == RmpEval && name == "rmp") || (kind == MmEval && name == "mm")
  }

  /** `e` says what is wrong with a record: a kind that a key set does not have, another identity, or another key
      under the same identity. */
  ghost predicate Explains(keys: Keys, meta: KeyMeta, hash: Hash, e: VerifyError)
    requires keys.rmp.file.Ok? && keys.mm.file.Ok?
  {
    match e
    case NotInLocalSet(name) => meta.kind == Unspecified && name == "unknown"
    case IdentityMismatch(name) => Named(meta.kind, name) && !SameIdentity(keys, meta)
    case FingerprintMismatch(name) => Named(meta.kind, name) && SameIdentity(keys, meta) && !SameKey(keys, meta, hash)
    case _ => false
  }

  /** What is wrong with one record, if anything: a key of a kind that a key set does not have, another identity,
      or another key under the same identity. */
  function Discrepancy(keys: Keys, meta: KeyMeta, hash: Hash): Option<VerifyError>
    requires keys.rmp.file.Ok? && keys.mm.file.Ok?
  {
    var name := KindName(meta.kind);
    if meta.kind == Unspecified then Some(NotInLocalSet(name))
    else
      var lm := LocalOf(keys, if meta.kind == RmpEval then keys.rmp else keys.mm, hash);
      if meta.kid != lm.kid || meta.preset != lm.preset || meta.dim != lm.dim || meta.evalMode != lm.evalMode
      then Some(IdentityMismatch(name))
      else if meta.fingerprint != [] && meta.fingerprint != lm.fingerprint then Some(FingerprintMismatch(name))
      else None
  }

  lemma AgreesWithoutDiscrepancy(keys: Keys, meta: KeyMeta, hash: Hash)
    requires keys.rmp.file.Ok? && keys.mm.file.Ok?
    ensures Agrees(keys, meta, hash) <==> Discrepancy(keys, meta, hash) == None
    ensures Discrepancy(keys, meta, hash).Some? ==> Explains(keys, meta, hash, Discrepancy(keys, meta, hash).value)
  {
  }

  /** The first discrepancy among the first `n` records. */
  function FirstDiscrepancy(keys: Keys, metas: seq<KeyMeta>, n: nat, hash: Hash): Option<VerifyError>
    requires keys.rmp.file.Ok? && keys.mm.file.Ok? && n <= |metas|
  {
    if n == 0 then None
    else
      var before := FirstDiscrepancy(keys, metas, n - 1, hash);
      if before.Some? then before else Discrepancy(keys, metas[n - 1], hash)
  }

  /** What verification of a key set against the server's records ends with. */
  function Verdict(keys: Keys, metas: seq<KeyMeta>, hash: Hash): Result<(), VerifyError> {
    if metas == [] then Err(NoRegisteredKeys)
    else if keys.rmp.file.Err? then Err(FingerprintFailed("rmp"))
    else if keys.mm.file.Err? then Err(FingerprintFailed("mm"))
    else
      match FirstDiscrepancy(keys, metas, |metas|, hash)
      case Some(e) => Err(e)
      case None => Ok(())
  }

  lemma {:induction false} FirstDiscrepancyStays(keys: Keys, metas: seq<KeyMeta>, m: nat, n: nat, hash: Hash)
    requires keys.rmp.file.Ok? && keys.mm.file.Ok? && m <= n <= |metas|
    requires FirstDiscrepancy(keys, metas, m, hash).Some?
    ensures FirstDiscrepancy(keys, metas, n, hash) == FirstDiscrepancy(keys, metas, m, hash)
  {
    if m < n {
      FirstDiscrepancyStays(keys, metas, m, n - 1, hash);
    }
  }

  lemma FirstOfNone(keys: Keys, metas: seq<KeyMeta>, hash: Hash)
    ensures keys.rmp.file.Ok? && keys.mm.file.Ok? ==> FirstDiscrepancy(keys, metas, 0, hash) == None
  {
  }

  lemma FirstOne(keys: Keys, metas: seq<KeyMeta>, i: nat, hash: Hash)
    requires keys.rmp.file.Ok? && keys.mm.file.Ok? && i < |metas| && FirstDiscrepancy(keys, metas, i, hash) == None
    ensures FirstDiscrepancy(keys, metas, i + 1, hash) == Discrepancy(keys, metas[i], hash)
    ensures Agrees(keys, metas[i], hash) <==> Discrepancy(keys, metas[i], hash) == None
    ensures Discrepancy(keys, metas[i], hash).Some? ==>
      Explains(keys, metas[i], hash, Discrepancy(keys, metas[i], hash).value)
    ensures Discrepancy(keys, metas[i], hash).Some? ==>
      FirstDiscrepancy(keys, metas, |metas|, hash) == Discrepancy(keys, metas[i], hash)
  {
    AgreesWithoutDiscrepancy(keys, metas[i], hash);
    if Discrepancy(keys, metas[i], hash).Some? {
      FirstDiscrepancyStays(keys, metas, i + 1, |metas|, hash);
    }
  }

  method VerifyKeys(keys: Keys, metas: seq<KeyMeta>, hash: Hash) returns (r: Result<(), VerifyError>)
    requires WellFormed(keys)
    ensures r == Verdict(keys, metas, hash)
    ensures r.Ok? <==>
      && metas != [] && keys.rmp.file.Ok? && keys.mm.file.Ok?
      && forall i :: 0 <= i < |metas| ==> Agrees(keys, metas[i], hash)
    ensures metas == [] ==> r == Err(NoRegisteredKeys)
    ensures metas != [] && keys.rmp.file.Err? ==> r == Err(FingerprintFailed("rmp"))
    ensures metas != [] && keys.rmp.file.Ok? && keys.mm.file.Err? ==> r == Err(FingerprintFailed("mm"))
    ensures metas != [] && keys.rmp.file.Ok? && keys.mm.file.Ok? && r.Err? ==>
      exists i ::
        && 0 <= i < |metas| && Explains(keys, metas[i], hash, r.error)
        && forall j :: 0 <= j < i ==> Agrees(keys, metas[j], hash)
  {
    hide FirstDiscrepancy, Agrees, Explains;
    FirstOfNone(keys, metas, hash);
    if metas == [] {
      return Err(NoRegisteredKeys);
    }
    if keys.rmp.file.Err? {
      return Err(FingerprintFailed(keys.rmp.name));
    }
    if keys.mm.file.Err? {
      return Err(FingerprintFailed(keys.mm.name));
    }
    var local := map["rmp" := LocalOf(keys, keys.rmp, hash), "mm" := LocalOf(keys, keys.mm, hash)];
    for i := 0 to |metas|
      invariant forall j :: 0 <= j < i ==> Agrees(keys, metas[j], hash)
      invariant FirstDiscrepancy(keys, metas, i, hash) == None
    {
      var rk := metas[i];
      var name := KindName(rk.kind);
      FirstOne(keys, metas, i, hash);
      if name !in local {
        return Err(NotInLocalSet(name));
      }
      var lm := local[name];
      if rk.kid != lm.kid || rk.preset != lm.preset || rk.dim != lm.dim || rk.evalMode != lm.evalMode {
        return Err(IdentityMismatch(name));
      }
      if |rk.fingerprint| > 0 && rk.fingerprint != lm.fingerprint {
        return Err(FingerprintMismatch(name));
      }
    }
    return Ok(());
  }

  /** What the server reports about its records. */
  function MetasOf(records: seq<Record>, hash: Hash): seq<KeyMeta> {
    seq(|records|, i requires 0 <= i < |records| => MetaOf(records[i], hash))
  }

  /** A registration that the server accepted and the verification that follows, however the files were read and
      whatever became of them since: verification succeeds exactly when the dimension survives the 32-bit header
      field and each recorded digest is that of the file now on disk, and otherwise reports the first of these
      that fails. So an unchanged key set verifies for every dimension below 2^32 and either flat mode, and a
      changed one only on a collision. */
  lemma {:induction false} RegisteredThenVerified(keys: Keys, frames: seq<Frame>, rmp: seq<Read>, rmpSize: nat,
                                                  mm: seq<Read>, mmSize: nat, hash: Hash)
    requires WellFormed(keys) && keys.rmp.file.Ok? && keys.mm.file.Ok?
    requires forall b: Bytes :: hash(b) != []
    requires frames == BothFrames(keys, rmp, rmpSize, mm, mmSize, hash) && Accepted(frames, hash).Some?
    ensures Verdict(keys, MetasOf(Accepted(frames, hash).value, hash), hash) ==
      if !(0 <= keys.dim < 0x1_0000_0000) then Err(IdentityMismatch("rmp"))
      else if hash(Content(rmp, |rmp|)) != hash(keys.rmp.file.value) then Err(FingerprintMismatch("rmp"))
      else if hash(Content(mm, |mm|)) != hash(keys.mm.file.value) then Err(FingerprintMismatch("mm"))
      else Ok(())
  {
    hide Accepted, BothFrames, Content;
    BothAccepted(keys, rmp, rmpSize, mm, mmSize, hash);
    var metas := MetasOf(BothRecords(keys, rmp, rmpSize, mm, mmSize), hash);
    assert FirstDiscrepancy(keys, metas, 1, hash) == Discrepancy(keys, metas[0], hash);
  }

  /** A key set of dimension 2^32 fails verification right after its registration was accepted, with its files
      unchanged. */
  lemma {:induction false} WideKeySetFails(hash: Hash) returns (keys: Keys, frames: seq<Frame>)
    requires forall b: Bytes :: hash(b) != []
    ensures WellFormed(keys) && keys.dim == 0x1_0000_0000 && keys.rmp.file == Ok([]) && keys.mm.file == Ok([])
    ensures Accepted(frames, hash) == Some([Record(RmpHeader(keys, 0), []), Record(MmHeader(keys, 0), [])])
    ensures Verdict(keys, MetasOf(Accepted(frames, hash).value, hash), hash) == Err(IdentityMismatch("rmp"))
  {
    hide Accepted, BothFrames;
    var empty := [Read([], Eof)];
    assert Content(empty, 1) == [] by {
      assert Content(empty, 0) == [];
    }
    keys := Keys("id", 0x1_0000_0000, RmpBundle(false, Ok([])), MmBundle(Ok([])));
    frames := BothFrames(keys, empty, 0, empty, 0, hash);
    BothAccepted(keys, empty, 0, empty, 0, hash);
    RegisteredThenVerified(keys, frames, empty, 0, empty, 0, hash);
  }
}
