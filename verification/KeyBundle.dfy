/** Opening the key bundles of a key set and closing them, against a native library that can fail at any call. */
module KeyBundle {
  import opened Wrappers
  import opened KeyFiles

  type Handle = nat

  /** A native object; encryptors and decryptors remember the context and the key they were built from. */
  datatype Object = Context(t: Tier) | Encryptor(ctx: Handle, key: Material) | Decryptor(ctx: Handle, key: Material)

  datatype OpenError = KeysNotFound | StageFailed | NativeFailed

  /** The native library and the staging directories. `faults` says which calls fail, in order. */
  class Native {
    const faults: seq<bool>
    var open: map<Handle, Object>
    var closes: seq<Handle>          // every native close, in order
    var stages: map<nat, Files>
    var next: nat
    var ops: nat

    ghost predicate Valid()
      reads this
    {
      (forall h :: h in open ==> h < next) && (forall s :: s in stages ==> s < next)
    }

    constructor (faults: seq<bool>)
      ensures Valid() && this.faults == faults && open == map[] && closes == [] && stages == map[] && ops == 0
    {
      this.faults, open, closes, stages, next, ops := faults, map[], [], map[], 0, 0;
    }

    function FailsAt(k: nat): bool {
      k < |faults| && faults[k]
    }

    method MkdirTemp() returns (r: Option<nat>)
      requires Valid()
      modifies this`stages, this`next, this`ops
      ensures Valid() && ops == old(ops) + 1
      ensures r == if FailsAt(old(ops)) then None else Some(old(next))
      ensures stages == if r.Some? then old(stages)[r.value := map[]] else old(stages)
      ensures r.Some? ==> r.value !in old(stages)
    {
      r := if FailsAt(ops) then None else Some(next);
      if r.Some? {
        stages := stages[next := map[]];
        next := next + 1;
      }
      ops := ops + 1;
    }

    method RemoveAll(stage: nat)
      requires Valid()
      modifies this`stages
      ensures Valid() && stages == old(stages) - {stage}
    {
      stages := stages - {stage};
    }

    /** Copies a raw file, or unwraps an envelope, to a raw file in a staging directory. */
    method Put(stage: nat, name: string, c: Content) returns (ok: bool)
      requires Valid() && stage in stages
      modifies this`stages, this`ops
      ensures Valid() && ops == old(ops) + 1 && (ok <==> !FailsAt(old(ops)))
      ensures stages == if ok then old(stages)[stage := old(stages)[stage][name := c]] else old(stages)
    {
      ok := !FailsAt(ops);
      ops := ops + 1;
      if ok {
        stages := stages[stage := stages[stage][name := c]];
      }
    }

    /** Creates an object, unless the call fails or there is nothing usable to create it from. */
    method Create(what: Option<Object>) returns (r: Option<Handle>)
      requires Valid()
      modifies this`open, this`next, this`ops
      ensures Valid() && ops == old(ops) + 1
      ensures r == if FailsAt(old(ops)) || what.None? then None else Some(old(next))
      ensures next == if r.Some? then old(next) + 1 else old(next)
      ensures open == if r.Some? then old(open)[r.value := what.value] else old(open)
      ensures r.Some? ==> r.value !in old(open)
    {
      r := if FailsAt(ops) || what.None? then None else Some(next);
      if r.Some? {
        open := open[next := what.value];
        next := next + 1;
      }
      ops := ops + 1;
    }

    method Close(h: Handle)
      requires Valid() && h in open
      modifies this`open, this`closes
      ensures Valid() && open == old(open) - {h} && closes == old(closes) + [h]
    {
      open := open - {h};
      closes := closes + [h];
    }
  }

  /** The key that the loader finds in a staged file. */
  function Loaded(files: Files, p: Part): Option<Material> {
    if BinName(p) in files && files[BinName(p)].Raw? && files[BinName(p)].key.part == p
    then Some(files[BinName(p)].key) else None
  }

  /** What staging makes of a slot: the envelope's inside, or the raw file as it is. */
  function Unpacked(files: Files, p: Part): Result<Content, OpenError> {
    match ResolveSlot(files, p)
    case None => Err(KeysNotFound)
    case Some(name) =>
      if name == JsonName(p) then (if files[name].Enveloped? then Ok(Raw(files[name].key)) else Err(StageFailed))
      else Ok(files[name])
  }

  /** The key with which a slot opens. */
  function KeyOf(files: Files, p: Part): Option<Material> {
    match Unpacked(files, p)
    case Ok(Raw(key)) => if key.part == p then Some(key) else None
    case _ => None
  }

  // ---- the handles of one tier ----

  function Listed(h: Option<Handle>): seq<Handle> {
    if h.Some? then [h.value] else []
  }

  function Only(h: Option<Handle>): set<Handle> {
    if h.Some? then {h.value} else {}
  }

  /** The handles of one tier: nil fields are not loaded, or already closed. */
  class Bundle {
    var enc: Option<Handle>
    var dec: Option<Handle>
    var ckks: Option<Handle>

    constructor (ctx: Handle)
      ensures enc == None && dec == None && ckks == Some(ctx)
    {
      enc, dec, ckks := None, None, Some(ctx);
    }

    /** The handles it holds, in closing order. */
    function Held(): seq<Handle>
      reads this
    {
      Listed(enc) + Listed(dec) + Listed(ckks)
    }

    function HeldSet(): set<Handle>
      reads this
    {
      Only(enc) + Only(dec) + Only(ckks)
    }

    ghost predicate Owns(native: Native)
      reads this, native
    {
      && native.Valid()
      && (enc.Some? ==> enc.value in native.open)
      && (dec.Some? ==> dec.value in native.open && dec != enc)
      && (ckks.Some? ==> ckks.value in native.open && ckks != enc && ckks != dec)
    }

    /** Closes whatever is held, encryptor and decryptor before the context they were built from. */
    method Close(native: Native)
      requires Owns(native)
      modifies this, native`open, native`closes
      ensures Owns(native) && enc == None && dec == None && ckks == None
      ensures native.closes == old(native.closes) + old(Held())
      ensures native.open == old(native.open) - old(HeldSet())
    {
      if enc.Some? {
        native.Close(enc.value);
        enc := None;
      }
      if dec.Some? {
        native.Close(dec.value);
        dec := None;
      }
      if ckks.Some? {
        native.Close(ckks.value);
        ckks := None;
      }
    }
  }

  /** The closing order: encryptor, decryptor, context, whichever of them are held. */
  lemma HeldOrder(b: Bundle)
    ensures b.enc.Some? && b.dec.Some? && b.ckks.Some? ==> b.Held() == [b.enc.value, b.dec.value, b.ckks.value]
    ensures b.enc.Some? && b.dec.None? && b.ckks.Some? ==> b.Held() == [b.enc.value, b.ckks.value]
    ensures b.enc.None? && b.dec.Some? && b.ckks.Some? ==> b.Held() == [b.dec.value, b.ckks.value]
    ensures b.enc.None? && b.dec.None? && b.ckks.Some? ==> b.Held() == [b.ckks.value]
    ensures forall h :: h in b.HeldSet() <==> h in b.Held()
  {
  }

  // ---- opening ----

  /** The key parts a caller asks for. */
  datatype Wanted = Wanted(enc: bool, sec: bool)

  /** The native calls `from`, ..., `from + n - 1` all work. */
  ghost predicate AllWork(native: Native, from: nat, n: nat) {
    forall k :: from <= k < from + n ==> !native.FailsAt(k)
  }

  predicate Loadable(staged: Files, want: Wanted) {
    (want.enc ==> Loaded(staged, Enc).Some?) && (want.sec ==> Loaded(staged, Sec).Some?)
  }

  function Count(want: Wanted): nat {
    (if want.enc then 1 else 0) + (if want.sec then 1 else 0)
  }

  /** The open objects of a bundle: its context, and the wanted coders on that context with these keys. */
  predicate Built(open: map<Handle, Object>, enc: Option<Handle>, dec: Option<Handle>, ctx: Handle, t: Tier,
                  encKey: Option<Material>, secKey: Option<Material>, want: Wanted) {
    && ctx in open && open[ctx] == Context(t)
    && (enc.Some? <==> want.enc) && (dec.Some? <==> want.sec)
    && (enc.Some? ==> encKey.Some? && enc.value in open && open[enc.value] == Encryptor(ctx, encKey.value))
    && (dec.Some? ==> secKey.Some? && dec.value in open && open[dec.value] == Decryptor(ctx, secKey.value))
  }

  lemma BuiltStays(open: map<Handle, Object>, more: map<Handle, Object>, enc: Option<Handle>, dec: Option<Handle>,
                   ctx: Handle, t: Tier, encKey: Option<Material>, secKey: Option<Material>, want: Wanted)
    requires Built(open, enc, dec, ctx, t, encKey, secKey, want)
    requires forall h :: h in open ==> h in more && more[h] == open[h]
    ensures Built(more, enc, dec, ctx, t, encKey, secKey, want)
  {
  }

  /** Stages one slot under its raw name. */
  method Materialise(native: Native, files: Files, p: Part, stage: nat) returns (r: Result<(), OpenError>)
    requires native.Valid() && stage in native.stages
    modifies native`stages, native`ops
    ensures native.Valid() && stage in native.stages && native.stages - {stage} == old(native.stages) - {stage}
    ensures r.Ok? <==> Unpacked(files, p).Ok? && !native.FailsAt(old(native.ops))
    ensures r.Ok? ==> native.ops == old(native.ops) + 1
    ensures r.Ok? ==> native.stages[stage] == old(native.stages)[stage][BinName(p) := Unpacked(files, p).value]
    ensures r == Err(KeysNotFound) <==> ResolveSlot(files, p) == None
    ensures r != Err(NativeFailed)
  {
    var slot := ResolveSlot(files, p);
    if slot == None {
      return Err(KeysNotFound);
    }
    var c := Unpacked(files, p);
    if c.Err? {
      return Err(StageFailed);
    }
    var ok := native.Put(stage, BinName(p), c.value);
    r := if ok then Ok(()) else Err(StageFailed);
  }

  /** Adds the encryptor to a bundle that holds its context only, or closes the context. */
  method AddEncryptor(native: Native, b: Bundle, staged: Files) returns (ok: bool)
    requires b.Owns(native) && b.ckks.Some? && b.enc == None && b.dec == None
    modifies b`enc, native`open, native`closes, native`next, native`ops
    ensures native.Valid() && native.ops == old(native.ops) + 1
    ensures ok <==> Loaded(staged, Enc).Some? && !native.FailsAt(old(native.ops))
    ensures ok ==>
      && b.Owns(native) && b.enc == Some(old(native.next)) && b.enc.value !in old(native.open)
      && native.open == old(native.open)[b.enc.value := Encryptor(b.ckks.value, Loaded(staged, Enc).value)]
      && native.closes == old(native.closes) && native.next == old(native.next) + 1
    ensures !ok ==>
      && native.open == old(native.open) - {b.ckks.value}
      && native.closes == old(native.closes) + [b.ckks.value] && native.next == old(native.next)
  {
    hide Loaded;
    var key := Loaded(staged, Enc);
    b.enc := native.Create(if key.Some? then Some(Encryptor(b.ckks.value, key.value)) else None);
    ok := b.enc.Some?;
    if !ok {
      native.Close(b.ckks.value);
    }
  }

  /** Adds the decryptor to a bundle, or closes the bundle. */
  method AddDecryptor(native: Native, b: Bundle, staged: Files) returns (ok: bool)
    requires b.Owns(native) && b.ckks.Some? && b.dec == None
    modifies b, native`open, native`closes, native`next, native`ops
    ensures native.Valid() && native.ops == old(native.ops) + 1
    ensures ok <==> Loaded(staged, Sec).Some? && !native.FailsAt(old(native.ops))
    ensures ok ==>
      && b.Owns(native) && b.dec == Some(old(native.next)) && b.dec.value !in old(native.open)
      && b.enc == old(b.enc) && b.ckks == old(b.ckks)
      && native.open == old(native.open)[b.dec.value := Decryptor(b.ckks.value, Loaded(staged, Sec).value)]
      && native.closes == old(native.closes) && native.next == old(native.next) + 1
    ensures !ok ==>
      && native.open == old(native.open) - old(b.HeldSet())
      && native.closes == old(native.closes) + old(b.Held()) && native.next == old(native.next)
  {
    hide Loaded;
    var key := Loaded(staged, Sec);
    b.dec := native.Create(if key.Some? then Some(Decryptor(b.ckks.value, key.value)) else None);
    ok := b.dec.Some?;
    if !ok {
      b.Close(native);
    }
  }

  /** The handles `first`, ..., `next - 1`, newest first. */
  function NewestFirst(first: nat, next: nat): seq<Handle>
    decreases next
  {
    if next <= first then [] else [next - 1] + NewestFirst(first, next - 1)
  }

  lemma NewestTwo(n: nat)
    ensures NewestFirst(n, n) == [] && NewestFirst(n, n + 1) == [n] && NewestFirst(n, n + 2) == [n + 1, n]
  {
  }

  /** Builds the native objects from the staged files; a failure closes what was built so far, newest first. */
  method Build(native: Native, staged: Files, t: Tier, want: Wanted) returns (r: Result<Bundle, OpenError>)
    requires native.Valid()
    modifies native`open, native`closes, native`next, native`ops
    ensures native.Valid()
    ensures r.Err? ==> r.error == NativeFailed && native.open == old(native.open)
    ensures r.Err? ==> native.closes == old(native.closes) + NewestFirst(old(native.next), native.next)
    ensures r.Ok? <==> Loadable(staged, want) && AllWork(native, old(native.ops), 1 + Count(want))
    ensures r.Ok? ==> native.ops == old(native.ops) + 1 + Count(want)
    ensures r.Ok? ==> var b := r.value;
      && fresh(b) && b.Owns(native) && b.ckks.Some?
      && native.open - b.HeldSet() == old(native.open) && native.closes == old(native.closes)
      && Built(native.open, b.enc, b.dec, b.ckks.value, t, Loaded(staged, Enc), Loaded(staged, Sec), want)
  {
    hide Loaded, NewestFirst;
    NewestTwo(native.next);
    var ctx := native.Create(Some(Context(t)));
    if ctx == None {
      return Err(NativeFailed);
    }
    var b := new Bundle(ctx.value);
    if want.enc {
      var ok := AddEncryptor(native, b, staged);
      if !ok {
        return Err(NativeFailed);
      }
    }
    if want.sec {
      var ok := AddDecryptor(native, b, staged);
      if !ok {
        return Err(NativeFailed);
      }
    }
    return Ok(b);
  }

  /** Every wanted slot is there and holds a key of its kind. */
  predicate Openable(files: Files, want: Wanted) {
    (want.enc ==> KeyOf(files, Enc).Some?) && (want.sec ==> KeyOf(files, Sec).Some?)
  }

  /** A wanted slot is absent and staging gets as far as looking for it. */
  ghost predicate ReachesMissingSlot(native: Native, from: nat, files: Files, want: Wanted) {
    && AllWork(native, from, 1)
    && if want.enc && ResolveSlot(files, Enc) == None then true
       else
         && want.sec && ResolveSlot(files, Sec) == None
         && (want.enc ==> Unpacked(files, Enc).Ok? && AllWork(native, from, 2))
  }

  predicate Stageable(files: Files, want: Wanted) {
    (want.enc ==> Unpacked(files, Enc).Ok?) && (want.sec ==> Unpacked(files, Sec).Ok?)
  }

  function StagedFiles(files: Files, want: Wanted): Files
    requires Stageable(files, want)
  {
    var enc: Files := if want.enc then map[BinName(Enc) := Unpacked(files, Enc).value] else map[];
    if want.sec then enc[BinName(Sec) := Unpacked(files, Sec).value] else enc
  }

  function InEnvelope(c: Content, p: Part): Option<Material> {
    if c.Enveloped? && c.key.part == p then Some(c.key) else None
  }

  /** A slot whose envelope is there opens with the key inside it, whatever raw file lies beside it. */
  lemma EnvelopeWins(files: Files)
    ensures "EncKey.json" in files ==>
      KeyOf(files, Enc) == InEnvelope(files["EncKey.json"], Enc) && ResolveSlot(files, Enc) == Some("EncKey.json")
    ensures "SecKey.json" in files ==>
      KeyOf(files, Sec) == InEnvelope(files["SecKey.json"], Sec) && ResolveSlot(files, Sec) == Some("SecKey.json")
    ensures "EvalKey.json" in files ==>
      KeyOf(files, Eval) == InEnvelope(files["EvalKey.json"], Eval) && ResolveSlot(files, Eval) == Some("EvalKey.json")
  {
  }

  /** A key set that was written as raw files, without envelopes, opens with exactly these keys. */
  lemma RawKeysOpen(files: Files, enc: Material, sec: Material, want: Wanted)
    requires "EncKey.json" !in files && "SecKey.json" !in files
    requires "EncKey.bin" in files && files["EncKey.bin"] == Raw(enc) && enc.part == Enc
    requires "SecKey.bin" in files && files["SecKey.bin"] == Raw(sec) && sec.part == Sec
    ensures KeyOf(files, Enc) == Some(enc) && KeyOf(files, Sec) == Some(sec) && Openable(files, want)
  {
  }

  /** When the missing-slot error is reached: a wanted slot has neither file, and what comes before it works. */
  lemma MissingSlotReached(native: Native, from: nat, files: Files, want: Wanted)
    ensures ReachesMissingSlot(native, from, files, want) ==>
      || (want.enc && "EncKey.json" !in files && "EncKey.bin" !in files)
      || (want.sec && "SecKey.json" !in files && "SecKey.bin" !in files)
    ensures want.enc && "EncKey.json" !in files && "EncKey.bin" !in files && !native.FailsAt(from) ==>
      ReachesMissingSlot(native, from, files, want)
    ensures (want.enc ==> KeyOf(files, Enc).Some?) && !native.FailsAt(from) && !native.FailsAt(from + 1) ==>
      want.sec && "SecKey.json" !in files && "SecKey.bin" !in files ==> ReachesMissingSlot(native, from, files, want)
  {
  }

  /** Stages the wanted slots in a directory of its own, which it removes again when one of them fails. */
  method StageKeys(native: Native, files: Files, want: Wanted) returns (r: Result<nat, OpenError>)
    requires native.Valid()
    modifies native`stages, native`next, native`ops
    ensures native.Valid()
    ensures r.Err? ==> native.stages == old(native.stages) && r.error != NativeFailed
    ensures r == Err(KeysNotFound) <==> ReachesMissingSlot(native, old(native.ops), files, want)
    ensures r.Ok? <==> Stageable(files, want) && AllWork(native, old(native.ops), 1 + Count(want))
    ensures r.Ok? ==> native.ops == old(native.ops) + 1 + Count(want)
    ensures r.Ok? ==> r.value in native.stages && native.stages - {r.value} == old(native.stages)
    ensures r.Ok? ==> native.stages[r.value] == StagedFiles(files, want)
  {
    var stage := native.MkdirTemp();
    if stage == None {
      return Err(StageFailed);
    }
    if want.enc {
      var m := Materialise(native, files, Enc, stage.value);
      if m.Err? {
        native.RemoveAll(stage.value);
        return Err(m.error);
      }
    }
    if want.sec {
      var m := Materialise(native, files, Sec, stage.value);
      if m.Err? {
        native.RemoveAll(stage.value);
        return Err(m.error);
      }
    }
    return Ok(stage.value);
  }

  /** Staging and loading together find the key of every wanted slot. */
  lemma StagedKeys(files: Files, want: Wanted)
    requires Stageable(files, want)
    ensures want.enc ==> Loaded(StagedFiles(files, want), Enc) == KeyOf(files, Enc)
    ensures want.sec ==> Loaded(StagedFiles(files, want), Sec) == KeyOf(files, Sec)
    ensures Loadable(StagedFiles(files, want), want) <==> Openable(files, want)
  {
    assert BinName(Enc)[0] != BinName(Sec)[0];
  }

  /** Opens one tier. Every failure, wherever it strikes, leaves the native objects and the staging directories
      as they were; success leaves exactly the wanted objects more. */
  method OpenBundle(native: Native, files: Files, t: Tier, want: Wanted) returns (r: Result<Bundle, OpenError>)
    requires native.Valid()
    modifies native
    ensures native.Valid() && native.stages == old(native.stages)
    ensures r.Err? ==> native.open == old(native.open)
    ensures r.Ok? <==> Openable(files, want) && AllWork(native, old(native.ops), 2 + 2 * Count(want))
    ensures r == Err(KeysNotFound) <==> ReachesMissingSlot(native, old(native.ops), files, want)
    ensures r == Err(NativeFailed) <==>
      r.Err? && Stageable(files, want) && AllWork(native, old(native.ops), 1 + Count(want))
    ensures r.Ok? ==> native.ops == old(native.ops) + 2 + 2 * Count(want)
    ensures r.Ok? ==> var b := r.value;
      && fresh(b) && b.Owns(native) && b.ckks.Some?
      && native.open - b.HeldSet() == old(native.open) && native.closes == old(native.closes)
      && Built(native.open, b.enc, b.dec, b.ckks.value, t, KeyOf(files, Enc), KeyOf(files, Sec), want)
  {
    var stage := StageKeys(native, files, want);
    if stage.Err? {
      return Err(stage.error);
    }
    StagedKeys(files, want);
    r := Build(native, native.stages[stage.value], t, want);
    native.RemoveAll(stage.value);
  }

  class Keys {
    const rmp: Bundle
    const mm: Bundle

    constructor (rmp: Bundle, mm: Bundle)
      ensures this.rmp == rmp && this.mm == mm
    {
      this.rmp, this.mm := rmp, mm;
    }

    ghost predicate Owns(native: Native)
      reads this, rmp, mm, native
    {
      rmp != mm && rmp.Owns(native) && mm.Owns(native) && rmp.HeldSet() !! mm.HeldSet()
    }

    /** Closes both tiers; a second call closes nothing more. */
    method Close(native: Native)
      requires Owns(native)
      modifies rmp, mm, native`open, native`closes
      ensures Owns(native) && rmp.HeldSet() == {} && mm.HeldSet() == {}
      ensures native.closes == old(native.closes) + old(rmp.Held()) + old(mm.Held())
      ensures native.open == old(native.open) - old(rmp.HeldSet()) - old(mm.HeldSet())
    {
      rmp.Close(native);
      mm.Close(native);
    }
  }

  lemma OpenableStageable(files: Files, want: Wanted)
    ensures Openable(files, want) ==> Stageable(files, want)
  {
  }

  lemma BothHeld(native: Native, rmp: Bundle, mm: Bundle, half: map<Handle, Object>)
    requires rmp.Owns(native) && mm.Owns(native) && native.open - mm.HeldSet() == half
    requires (rmp.enc.Some? ==> rmp.enc.value in half) && (rmp.dec.Some? ==> rmp.dec.value in half)
    requires rmp.ckks.Some? ==> rmp.ckks.value in half
    ensures rmp.HeldSet() !! mm.HeldSet()
    ensures native.open - rmp.HeldSet() - mm.HeldSet() == half - rmp.HeldSet()
  {
  }

  /** Opens both tiers or neither. */
  method OpenKeys(native: Native, dirs: Dirs, want: Wanted) returns (r: Result<Keys, OpenError>)
    requires native.Valid()
    modifies native
    ensures native.Valid() && native.stages == old(native.stages)
    ensures r.Err? ==> native.open == old(native.open)
    ensures r.Ok? <==>
      && Openable(dirs.In(Rmp), want) && Openable(dirs.In(Mm), want)
      && AllWork(native, old(native.ops), 4 + 4 * Count(want))
    ensures r == Err(KeysNotFound) <==>
      if Openable(dirs.In(Rmp), want) && AllWork(native, old(native.ops), 2 + 2 * Count(want))
      then ReachesMissingSlot(native, old(native.ops) + 2 + 2 * Count(want), dirs.In(Mm), want)
      else ReachesMissingSlot(native, old(native.ops), dirs.In(Rmp), want)
    ensures r == Err(NativeFailed) ==> Stageable(dirs.In(Rmp), want)
    ensures r.Ok? ==> var k := r.value;
      && fresh(k) && k.Owns(native) && k.rmp.ckks.Some? && k.mm.ckks.Some?
      && native.open - k.rmp.HeldSet() - k.mm.HeldSet() == old(native.open)
      && Built(native.open, k.rmp.enc, k.rmp.dec, k.rmp.ckks.value, Rmp,
               KeyOf(dirs.In(Rmp), Enc), KeyOf(dirs.In(Rmp), Sec), want)
      && Built(native.open, k.mm.enc, k.mm.dec, k.mm.ckks.value, Mm,
               KeyOf(dirs.In(Mm), Enc), KeyOf(dirs.In(Mm), Sec), want)
  {
    hide Openable, ReachesMissingSlot, KeyOf, Stageable, Built, Bundle.HeldSet, Bundle.Held;
    OpenableStageable(dirs.In(Rmp), want);
    var rmp := OpenBundle(native, dirs.In(Rmp), Rmp, want);
    if rmp.Err? {
      return Err(rmp.error);
    }
    ghost var half := native.open;
    var b := rmp.value;
    var mm := OpenBundle(native, dirs.In(Mm), Mm, want);
    if mm.Err? {
      b.Close(native);
      return Err(mm.error);
    }
    BuiltStays(half, native.open, b.enc, b.dec, b.ckks.value, Rmp,
               KeyOf(dirs.In(Rmp), Enc), KeyOf(dirs.In(Rmp), Sec), want);
    BothHeld(native, b, mm.value, half);
    var keys := new Keys(b, mm.value);
    return Ok(keys);
  }

  /** The generator's own output opens as the very keys it made. */
  lemma TrioOpens(t: Tier, id: string, run: nat, want: Wanted)
    ensures KeyOf(Trio(t, id, run), Enc) == Some(Material(Enc, t, run))
    ensures KeyOf(Trio(t, id, run), Sec) == Some(Material(Sec, t, run))
    ensures KeyOf(Trio(t, id, run), Eval) == Some(Material(Eval, t, run))
    ensures Trio(t, id, run).Keys == {"EncKey.json", "EvalKey.bin", "SecKey.json"}
    ensures forall name, i, key :: name in Trio(t, id, run) && Trio(t, id, run)[name] == Enveloped(i, key) ==> i == id
    ensures Openable(Trio(t, id, run), want)
  {
  }

  /** From generation to use: a key set that was generated opens exactly when the native calls work, with every
      tier's encryptor and decryptor holding the keys of that one run. */
  method GenerateThenOpen(fs: FileSystem, native: Native, id: string, run: nat, want: Wanted)
    returns (g: Result<(), GenError>, r: Result<Keys, OpenError>)
    requires native.Valid()
    modifies fs, native
    ensures g.Ok? ==> forall t: Tier ::
      && fs.dirs.In(t).Keys == {"EncKey.json", "EvalKey.bin", "SecKey.json"}
      && KeyOf(fs.dirs.In(t), Eval) == Some(Material(Eval, t, run))
    ensures g.Ok? ==> (r.Ok? <==> AllWork(native, old(native.ops), 4 + 4 * Count(want)))
    ensures g.Ok? && r.Ok? ==> var k := r.value;
      && k.Owns(native) && k.rmp.ckks.Some? && k.mm.ckks.Some?
      && Built(native.open, k.rmp.enc, k.rmp.dec, k.rmp.ckks.value, Rmp,
               Some(Material(Enc, Rmp, run)), Some(Material(Sec, Rmp, run)), want)
      && Built(native.open, k.mm.enc, k.mm.dec, k.mm.ckks.value, Mm,
               Some(Material(Enc, Mm, run)), Some(Material(Sec, Mm, run)), want)
  {
    hide KeyOf, Trio, Openable, Built;
    TrioOpens(Rmp, id, run, want);
    TrioOpens(Mm, id, run, want);
    g := GenerateKeys(fs, id, run);
    r := OpenKeys(native, fs.dirs, want);
  }

  /** The documented error for a missing slot does not appear in this fault-free case: the flat tier's encryption
      key is damaged and its secret key is absent, and opening stops at the former. */
  method MissingSlotGoesUnreported() returns (dirs: Dirs, r: Result<Keys, OpenError>)
    ensures dirs.rmp.Some? && ResolveSlot(dirs.rmp.value, Sec) == None
    ensures r == Err(StageFailed)
  {
    dirs := Dirs(Some(map["EncKey.json" := Junk("")]), None);
    var native := new Native([]);
    var files := dirs.In(Rmp);
    assert ResolveSlot(files, Enc) == Some("EncKey.json") && Unpacked(files, Enc) == Err(StageFailed);
    r := OpenKeys(native, dirs, Wanted(true, true));
    assert r.Err? && !r.error.KeysNotFound? && !r.error.NativeFailed?;
  }
}
