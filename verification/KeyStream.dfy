/** Streaming the two evaluation keys to the server in frames, and the server's reading of the stream. */
module KeyStream {
  import opened Wrappers

  type Bytes = seq<bv8>

  const CHUNK: nat := 0x10_0000

  datatype KeyKind = Unspecified | RmpEval | MmEval

  /** The identity sent ahead of one key; `totalLen` is its announced length. */
  datatype KeyHeader =
    KeyHeader(kind: KeyKind, totalLen: nat, kid: string, preset: string, dim: UInt32, evalMode: string)

  datatype Frame = Header(hdr: KeyHeader) | Data(bytes: Bytes) | Footer(sha: Bytes)

  /** The SHA-256 of FIPS 180-4, as any function of the hashed bytes. */
  type Hash = Bytes -> Bytes

  /** An incremental digest: what was written so far determines the sum. */
  class HashWriter {
    const hash: Hash
    ghost var written: Bytes
    var state: Bytes

    ghost predicate Valid()
      reads this
    {
      state == written
    }

    constructor (hash: Hash)
      ensures Valid() && this.hash == hash && written == []
    {
      this.hash := hash;
      written, state := [], [];
    }

    method Write(chunk: Bytes)
      requires Valid()
      modifies this`written, this`state
      ensures Valid() && written == old(written) + chunk
    {
      written, state := written + chunk, state + chunk;
    }

    method Sum() returns (d: Bytes)
      requires Valid()
      ensures d == hash(written)
    {
      d := hash(state);
    }
  }

  // ---- reading a key file ----

  datatype Status = More | Eof | Broken(msg: string)

  /** What one read call yields. */
  datatype Read = Read(data: Bytes, status: Status)

  /** A legal sequence of reads into a buffer of one chunk: short and empty reads are allowed, and exactly the
      last one reports the end of the file or an error. */
  ghost predicate Legal(pieces: seq<Read>) {
    && pieces != []
    && (forall i :: 0 <= i < |pieces| ==> |pieces[i].data| <= CHUNK)
    && (forall i :: 0 <= i < |pieces| ==> (pieces[i].status == More <==> i < |pieces| - 1))
  }

  /** The bytes of the first `n` reads. */
  function Content(pieces: seq<Read>, n: nat): Bytes
    requires n <= |pieces|
  {
    if n == 0 then [] else Content(pieces, n - 1) + pieces[n - 1].data
  }

  class Reader {
    const pieces: seq<Read>
    var pos: nat

    constructor (pieces: seq<Read>)
      ensures this.pieces == pieces && pos == 0
    {
      this.pieces := pieces;
      pos := 0;
    }

    /** Fills the front of `buf`; the rest of `buf` may be overwritten as well. */
    method ReadInto(buf: array<bv8>) returns (n: nat, status: Status)
      requires pos < |pieces| && |pieces[pos].data| <= buf.Length
      modifies this`pos, buf
      ensures pos == old(pos) + 1
      ensures n == |pieces[old(pos)].data| && buf[..n] == pieces[old(pos)].data && status == pieces[old(pos)].status
    {
      var data := pieces[pos].data;
      n, status := |data|, pieces[pos].status;
      forall i | 0 <= i < n {
        buf[i] := data[i];
      }
      pos := pos + 1;
    }
  }

  // ---- the client's side of the stream ----

  /** The outgoing stream; it takes the first `capacity` frames and then fails. A frame is serialized when it is
      sent, so later changes to the sender's buffer do not reach it. */
  class Stream {
    const capacity: nat
    var frames: seq<Frame>

    constructor (capacity: nat)
      ensures this.capacity == capacity && frames == []
    {
      this.capacity := capacity;
      frames := [];
    }

    method Send(f: Frame) returns (ok: bool)
      modifies this
      ensures ok <==> |old(frames)| < capacity
      ensures frames == if ok then old(frames) + [f] else old(frames)
    {
      ok := |frames| < capacity;
      if ok {
        frames := frames + [f];
      }
    }
  }

  /** The data frames of the first `n` reads; an empty read sends nothing. */
  function DataFrames(pieces: seq<Read>, n: nat): seq<Frame>
    requires n <= |pieces|
  {
    if n == 0 then []
    else DataFrames(pieces, n - 1) + (if pieces[n - 1].data == [] then [] else [Data(pieces[n - 1].data)])
  }

  /** One key on the wire. */
  function KeyFrames(hdr: KeyHeader, pieces: seq<Read>, hash: Hash): seq<Frame> {
    [Header(hdr)] + DataFrames(pieces, |pieces|) + [Footer(hash(Content(pieces, |pieces|)))]
  }

  lemma {:induction false} DataFramesPrefix(pieces: seq<Read>, m: nat, n: nat)
    requires m <= n <= |pieces|
    ensures DataFrames(pieces, m) <= DataFrames(pieces, n)
  {
    if m < n {
      DataFramesPrefix(pieces, m, n - 1);
    }
  }

  /** No data frame is empty or larger than one chunk. */
  lemma {:induction false} DataFramesSized(pieces: seq<Read>, n: nat)
    requires Legal(pieces) && n <= |pieces|
    ensures forall f :: f in DataFrames(pieces, n) ==> f.Data? && 0 < |f.bytes| <= 1048576
  {
    if n > 0 {
      DataFramesSized(pieces, n - 1);
    }
  }

  lemma NextRead(pieces: seq<Read>, n: nat)
    requires Legal(pieces) && n < |pieces|
    ensures |pieces[n].data| <= CHUNK && (pieces[n].status == More <==> n + 1 < |pieces|)
    ensures Content(pieces, n + 1) == Content(pieces, n) + pieces[n].data
    ensures DataFrames(pieces, n + 1)
         == DataFrames(pieces, n) + (if pieces[n].data == [] then [] else [Data(pieces[n].data)])
    ensures DataFrames(pieces, n + 1) <= DataFrames(pieces, |pieces|)
  {
    DataFramesPrefix(pieces, n + 1, |pieces|);
  }

  lemma NothingRead(pieces: seq<Read>)
    requires Legal(pieces)
    ensures pieces != [] && Content(pieces, 0) == [] && DataFrames(pieces, 0) == []
  {
  }

  /** The read loop: hashes and sends every non-empty read from one reused buffer, up to the end of the file. */
  method SendChunks(out: Stream, reader: Reader, h: HashWriter) returns (r: Result<(), string>)
    requires Legal(reader.pieces) && reader.pos == 0 && h.Valid() && h.written == []
    modifies out, reader, h
    ensures h.Valid()
    ensures var pieces := reader.pieces; var all := DataFrames(pieces, |pieces|);
      && (r.Ok? <==> pieces[|pieces| - 1].status == Eof && (all == [] || |old(out.frames)| + |all| <= out.capacity))
      && (r.Ok? ==> out.frames == old(out.frames) + all && h.written == Content(pieces, |pieces|))
      && old(out.frames) <= out.frames <= old(out.frames) + all
  {
    hide Legal, Content, DataFrames;
    ghost var pieces, before := reader.pieces, out.frames;
    var buf := new bv8[CHUNK];
    var status := More;
    NothingRead(pieces);
    while status == More
      invariant reader.pos <= |pieces| && (status == More <==> reader.pos < |pieces|)
      invariant reader.pos > 0 ==> status == pieces[reader.pos - 1].status
      invariant h.Valid() && h.written == Content(pieces, reader.pos)
      invariant out.frames == before + DataFrames(pieces, reader.pos)
      invariant DataFrames(pieces, reader.pos) == [] || |out.frames| <= out.capacity
      decreases |pieces| - reader.pos
    {
      NextRead(pieces, reader.pos);
      var n;
      n, status := reader.ReadInto(buf);
      if n > 0 {
        h.Write(buf[..n]);
        var ok := out.Send(Data(buf[..n]));
        if !ok {
          return Err("send");
        }
      }
    }
    if status.Broken? {
      return Err(status.msg);
    }
    return Ok(());
  }

  lemma OnTheWire(hdr: KeyHeader, pieces: seq<Read>, hash: Hash)
    ensures KeyFrames(hdr, pieces, hash)
         == [Header(hdr)] + DataFrames(pieces, |pieces|) + [Footer(hash(Content(pieces, |pieces|)))]
  {
  }

  lemma ShortOfFooter(before: seq<Frame>, header: Frame, all: seq<Frame>, footer: Frame, now: seq<Frame>)
    requires before + [header] <= now <= before + [header] + all
    ensures before <= now < before + ([header] + all + [footer])
    ensures before + [header] + all + [footer] == before + ([header] + all + [footer])
  {
  }

  /** Sends one key; `size` is the file's length when it was opened. On failure only a proper prefix of the
      key's frames was sent, so never its footer. */
  method StreamEvalKey(out: Stream, hdr: KeyHeader, source: Result<Reader, string>, size: nat, hash: Hash)
    returns (r: Result<(), string>)
    requires source.Ok? ==> Legal(source.value.pieces) && source.value.pos == 0
    modifies out, if source.Ok? then {source.value} else {}
    ensures source.Err? ==> r == Err(source.error) && out.frames == old(out.frames)
    ensures source.Ok? ==>
      var pieces := source.value.pieces; var full := KeyFrames(hdr.(totalLen := size), pieces, hash);
      && (r.Ok? <==> pieces[|pieces| - 1].status == Eof && |old(out.frames)| + |full| <= out.capacity)
      && (r.Ok? ==> out.frames == old(out.frames) + full)
      && (r.Err? ==> old(out.frames) <= out.frames < old(out.frames) + full)
  {
    hide DataFrames, Content, Legal, KeyFrames;
    if source.Err? {
      return Err(source.error);
    }
    var reader := source.value;
    var header := Header(hdr.(totalLen := size));
    ghost var before, all := out.frames, DataFrames(reader.pieces, |reader.pieces|);
    ghost var footer := Footer(hash(Content(reader.pieces, |reader.pieces|)));
    assert KeyFrames(hdr.(totalLen := size), reader.pieces, hash) == [header] + all + [footer] by {
      OnTheWire(hdr.(totalLen := size), reader.pieces, hash);
    }
    var ok := out.Send(header);
    if !ok {
      return Err("send");
    }
    var h := new HashWriter(hash);
    r := SendChunks(out, reader, h);
    ShortOfFooter(before, header, all, footer, out.frames);
    if r.Err? {
      return;
    }
    var sha := h.Sum();
    ok := out.Send(Footer(sha));
    if !ok {
      return Err("send");
    }
    return Ok(());
  }
}
