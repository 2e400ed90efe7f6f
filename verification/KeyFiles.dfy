/** The key files of a key set on disk, and their generation with rollback. */
module KeyFiles {
  import opened Wrappers

  datatype Tier = Rmp | Mm

  datatype Part = Enc | Eval | Sec

  /** Key material of one tier, from the generator run numbered `run`. */
  datatype Material = Material(part: Part, tier: Tier, run: nat)

  /** A file is a raw key, a key in its JSON envelope, or anything else, such as a torn write. */
  datatype Content = Raw(key: Material) | Enveloped(id: string, key: Material) | Junk(text: string)

  type Files = map<string, Content>

  function BinName(p: Part): string {
    match p
    case Enc => "EncKey.bin"
    case Eval => "EvalKey.bin"
    case Sec => "SecKey.bin"
  }

  function JsonName(p: Part): string {
    match p
    case Enc => "EncKey.json"
    case Eval => "EvalKey.json"
    case Sec => "SecKey.json"
  }

  const SLOT_FILES: set<string> :=
    {"EncKey.bin", "EvalKey.bin", "SecKey.bin", "EncKey.json", "EvalKey.json", "SecKey.json"}

  /** The file that holds a slot: the envelope when both formats are there. */
  function ResolveSlot(files: Files, p: Part): Option<string> {
    if JsonName(p) in files then Some(JsonName(p))
    else if BinName(p) in files then Some(BinName(p))
    else None
  }

  predicate AnySlotExists(files: Files) {
    ResolveSlot(files, Enc).Some? || ResolveSlot(files, Eval).Some? || ResolveSlot(files, Sec).Some?
  }

  /** The guard sees exactly the key slot files. */
  lemma SlotsAreTheSixNames(files: Files)
    ensures AnySlotExists(files) <==> files.Keys * SLOT_FILES != {}
  {
    var names := files.Keys * SLOT_FILES;
    if AnySlotExists(files) {
      var p := if ResolveSlot(files, Enc).Some? then Enc else if ResolveSlot(files, Eval).Some? then Eval else Sec;
      assert ResolveSlot(files, p).value in names;
    } else {
      assert forall p :: BinName(p) !in files && JsonName(p) !in files by {
        assert forall p :: ResolveSlot(files, p) == None;
      }
      assert SLOT_FILES == {BinName(Enc), BinName(Eval), BinName(Sec), JsonName(Enc), JsonName(Eval), JsonName(Sec)};
    }
  }

  // ---- the file system ----

  datatype Fault = Fine | Clean | Torn   // the step works, fails without effect, or fails half-way

  /** The two tier directories below one key path; None is a missing directory. */
  datatype Dirs = Dirs(rmp: Option<Files>, mm: Option<Files>) {
    function At(t: Tier): Option<Files> {
      if t == Rmp then rmp else mm
    }

    function With(t: Tier, d: Option<Files>): Dirs {
      if t == Rmp then Dirs(d, mm) else Dirs(rmp, d)
    }

    /** The files of a tier; a missing directory has none. */
    function In(t: Tier): Files {
      if At(t).Some? then At(t).value else map[]
    }

    /** The files of a tier that are not key slot files. */
    function Foreign(t: Tier): Files {
      In(t) - SLOT_FILES
    }
  }

  lemma WriteKeepsForeign(files: Files, name: string, c: Content)
    ensures name in SLOT_FILES ==> files[name := c] - SLOT_FILES == files - SLOT_FILES
  {
  }

  lemma RemoveKeepsForeign(files: Files, name: string)
    ensures name in SLOT_FILES ==> (files - {name}) - SLOT_FILES == files - SLOT_FILES
  {
  }

  /** The file system. `faults` says how each step ends, in order; steps past its end work. */
  class FileSystem {
    const faults: seq<Fault>
    var dirs: Dirs
    var ops: nat

    constructor (dirs: Dirs, faults: seq<Fault>)
      ensures this.dirs == dirs && this.faults == faults && ops == 0
    {
      this.dirs, this.faults, ops := dirs, faults, 0;
    }

    function FaultAt(k: nat): Fault {
      if k < |faults| then faults[k] else Fine
    }

    method MkdirAll(t: Tier) returns (ok: bool)
      modifies this
      ensures ops == old(ops) + 1 && (ok <==> FaultAt(old(ops)) == Fine)
      ensures dirs == if old(dirs.At(t)).Some? || FaultAt(old(ops)) == Clean then old(dirs)
                      else old(dirs).With(t, Some(map[]))
      ensures dirs.In(t) == old(dirs.In(t)) && dirs.Foreign(t) == old(dirs.Foreign(t))
    {
      if dirs.At(t) == None && FaultAt(ops) != Clean {
        dirs := dirs.With(t, Some(map[]));
      }
      ok := FaultAt(ops) == Fine;
      ops := ops + 1;
    }

    /** Any step that reads or computes without changing the disk. */
    method Attempt() returns (ok: bool)
      modifies this`ops
      ensures ops == old(ops) + 1 && (ok <==> FaultAt(old(ops)) == Fine)
    {
      ok := FaultAt(ops) == Fine;
      ops := ops + 1;
    }

    /** Writes a file, in whole or, when torn, with other content. */
    method Write(t: Tier, name: string, c: Content) returns (ok: bool)
      requires dirs.At(t).Some?
      modifies this
      ensures ops == old(ops) + 1 && (ok <==> FaultAt(old(ops)) == Fine)
      ensures match FaultAt(old(ops))
        case Fine => dirs == old(dirs).With(t, Some(old(dirs.In(t))[name := c]))
        case Clean => dirs == old(dirs)
        case Torn => dirs == old(dirs).With(t, Some(old(dirs.In(t))[name := Junk("")]))
      ensures name in SLOT_FILES ==> dirs.Foreign(t) == old(dirs.Foreign(t))
    {
      var files := dirs.In(t);
      WriteKeepsForeign(files, name, c);
      WriteKeepsForeign(files, name, Junk(""));
      match FaultAt(ops) {
        case Fine => dirs := dirs.With(t, Some(files[name := c]));
        case Clean =>
        case Torn => dirs := dirs.With(t, Some(files[name := Junk("")]));
      }
      ok := FaultAt(ops) == Fine;
      ops := ops + 1;
    }

    /** Removes a file that may be missing. */
    method Remove(t: Tier, name: string) returns (ok: bool)
      requires dirs.At(t).Some?
      modifies this
      ensures ops == old(ops) + 1 && (ok <==> FaultAt(old(ops)) == Fine)
      ensures dirs == if ok then old(dirs).With(t, Some(old(dirs.In(t)) - {name})) else old(dirs)
      ensures name in SLOT_FILES ==> dirs.Foreign(t) == old(dirs.Foreign(t))
    {
      ok := FaultAt(ops) == Fine;
      ops := ops + 1;
      if ok {
        RemoveKeepsForeign(dirs.In(t), name);
        dirs := dirs.With(t, Some(dirs.In(t) - {name}));
      }
    }

    /** Moves a file over another one, entirely or not at all. */
    method Rename(t: Tier, from: string, to: string) returns (ok: bool)
      requires dirs.At(t).Some? && from in dirs.In(t)
      modifies this
      ensures ops == old(ops) + 1 && (ok <==> FaultAt(old(ops)) == Fine)
      ensures dirs == if ok then old(dirs).With(t, Some((old(dirs.In(t)) - {from})[to := old(dirs.In(t))[from]]))
                      else old(dirs)
    {
      ok := FaultAt(ops) == Fine;
      ops := ops + 1;
      if ok {
        dirs := dirs.With(t, Some((dirs.In(t) - {from})[to := dirs.In(t)[from]]));
      }
    }

    /** Best-effort removal in the rollback; no fault is injected into it. */
    method Discard(t: Tier, name: string)
      modifies this`dirs
      ensures dirs == if old(dirs.At(t)).Some? then old(dirs).With(t, Some(old(dirs.In(t)) - {name})) else old(dirs)
    {
      if dirs.At(t).Some? {
        dirs := dirs.With(t, Some(dirs.In(t) - {name}));
      }
    }

    method DiscardEmptyDir(t: Tier)
      modifies this`dirs
      ensures dirs == if old(dirs.In(t)) == map[] then old(dirs).With(t, None) else old(dirs)
    {
      if dirs.In(t) == map[] {
        dirs := dirs.With(t, None);
      }
    }
  }

  // ---- generation ----

  datatype GenError = KeysAlreadyExist | NotEmpty | StepFailed

  /** What the native generator leaves in a tier's directory. */
  function Generated(t: Tier, id: string, run: nat): Files {
    map["EncKey.bin" := Raw(Material(Enc, t, run)),
        "EvalKey.bin" := Raw(Material(Eval, t, run)),
        "SecKey.json" := Enveloped(id, Material(Sec, t, run))]
  }

  /** What one tier's directory holds after the generation of a key set. */
  function Trio(t: Tier, id: string, run: nat): Files {
    map["EncKey.json" := Enveloped(id, Material(Enc, t, run)),
        "EvalKey.bin" := Raw(Material(Eval, t, run)),
        "SecKey.json" := Enveloped(id, Material(Sec, t, run))]
  }

  function Other(t: Tier): Tier {
    if t == Rmp then Mm else Rmp
  }

  /** The steps `from`, ..., `from + n - 1` all work. */
  ghost predicate AllFine(fs: FileSystem, from: nat, n: nat) {
    forall k :: from <= k < from + n ==> fs.FaultAt(k) == Fine
  }

  /** Where the secret key's envelope is written before it is renamed; not one of the six slot names. */
  const SEC_TMP: string := "SecKey.json.tmp"

  /** What enveloping the secret key leaves of its temporary file, when step `from` writes it: nothing, unless
      both putting it in place and removing it fail. */
  function TmpLeft(fs: FileSystem, from: nat, c: Content): Files {
    match fs.FaultAt(from)
    case Clean => map[]
    case Torn => if fs.FaultAt(from + 1) == Fine then map[] else map[SEC_TMP := Junk("")]
    case Fine => if fs.FaultAt(from + 1) == Fine || fs.FaultAt(from + 2) == Fine then map[] else map[SEC_TMP := c]
  }

  lemma TwoFine(fs: FileSystem, from: nat)
    ensures AllFine(fs, from, 2) <==> fs.FaultAt(from) == Fine && fs.FaultAt(from + 1) == Fine
  {
  }

  /** Envelopes the secret key into a temporary file and renames it; on failure the temporary file is removed
      again, if that works. */
  method WrapSecKey(fs: FileSystem, t: Tier, c: Content) returns (ok: bool)
    requires fs.dirs.At(t).Some? && SEC_TMP !in fs.dirs.In(t)
    modifies fs
    ensures fs.dirs.At(Other(t)) == old(fs.dirs.At(Other(t)))
    ensures fs.dirs.Foreign(t) == old(fs.dirs.Foreign(t)) + TmpLeft(fs, old(fs.ops), c)
    ensures fs.FaultAt(old(fs.ops)) == Torn && fs.FaultAt(old(fs.ops) + 1) == Fine ==> SEC_TMP !in fs.dirs.In(t)
    ensures fs.FaultAt(old(fs.ops)) == Fine && fs.FaultAt(old(fs.ops) + 2) == Fine ==> SEC_TMP !in fs.dirs.In(t)
    ensures fs.FaultAt(old(fs.ops)) == Clean ==> SEC_TMP !in fs.dirs.In(t)
    ensures ok <==> AllFine(fs, old(fs.ops), 2)
    ensures ok ==> fs.ops == old(fs.ops) + 2 && fs.dirs.At(t) == Some(old(fs.dirs.In(t))["SecKey.json" := c])
  {
    hide AllFine;
    ghost var files, from := fs.dirs.In(t), fs.ops;
    TwoFine(fs, from);
    ok := fs.Write(t, SEC_TMP, c);
    if ok {
      ok := fs.Rename(t, SEC_TMP, "SecKey.json");
      assert files[SEC_TMP := c] - {SEC_TMP} == files;
    }
    if !ok {
      var _ := fs.Remove(t, SEC_TMP);
    }
    assert fs.dirs.In(t) - SLOT_FILES == files - SLOT_FILES + TmpLeft(fs, from, c);
  }

  /** The steps of one tier's generation that can fail. */
  const STEPS: nat := 10

  /** The temporary file that stays behind in a tier whose generation begins at step `from` with the files `was`. */
  ghost function Leftover(fs: FileSystem, from: nat, was: Files, t: Tier, id: string, run: nat): Files {
    if was == map[] && AllFine(fs, from, 6) then TmpLeft(fs, from + 6, Enveloped(id, Material(Sec, t, run))) else map[]
  }

  /** The native generator, which refuses a directory that is not empty. */
  method Generate(fs: FileSystem, t: Tier, id: string, run: nat) returns (r: Result<(), GenError>)
    modifies fs
    ensures fs.dirs.At(Other(t)) == old(fs.dirs.At(Other(t)))
    ensures fs.dirs.Foreign(t) == old(fs.dirs.Foreign(t)) +
      (if old(fs.dirs.In(t)) == map[] && AllFine(fs, old(fs.ops), 5)
       then TmpLeft(fs, old(fs.ops) + 5, Enveloped(id, Material(Sec, t, run))) else map[])
    ensures r.Ok? <==> old(fs.dirs.In(t)) == map[] && AllFine(fs, old(fs.ops), 7)
    ensures r.Ok? ==> fs.ops == old(fs.ops) + 7 && fs.dirs.At(t) == Some(Generated(t, id, run))
    ensures r == Err(NotEmpty) <==> old(fs.dirs.In(t)) != map[] && AllFine(fs, old(fs.ops), 2)
    ensures r != Err(KeysAlreadyExist)
  {
    hide Dirs.Foreign, TmpLeft;
    var ok := fs.MkdirAll(t);
    if !ok { return Err(StepFailed); }
    ok := fs.Attempt();
    if !ok { return Err(StepFailed); }
    if fs.dirs.In(t) != map[] {
      return Err(NotEmpty);
    }
    ok := fs.Attempt();
    if !ok { return Err(StepFailed); }
    ok := fs.Write(t, "EncKey.bin", Raw(Material(Enc, t, run)));
    if !ok { return Err(StepFailed); }
    ok := fs.Write(t, "EvalKey.bin", Raw(Material(Eval, t, run)));
    if !ok { return Err(StepFailed); }
    ok := WrapSecKey(fs, t, Enveloped(id, Material(Sec, t, run)));
    if !ok { return Err(StepFailed); }
    return Ok(());
  }

  /** Replaces the raw encryption key by its envelope. */
  method WrapEncKey(fs: FileSystem, t: Tier, id: string, run: nat) returns (ok: bool)
    requires fs.dirs.At(t) == Some(Generated(t, id, run))
    modifies fs
    ensures fs.dirs.At(Other(t)) == old(fs.dirs.At(Other(t))) && fs.dirs.Foreign(t) == old(fs.dirs.Foreign(t))
    ensures ok <==> AllFine(fs, old(fs.ops), 2)
    ensures ok ==> fs.ops == old(fs.ops) + 2 && fs.dirs.At(t) == Some(Trio(t, id, run))
  {
    hide Dirs.Foreign, AllFine;
    TwoFine(fs, fs.ops);
    var envelope := Enveloped(id, Material(Enc, t, run));
    ok := fs.Write(t, "EncKey.json", envelope);
    if ok {
      ok := fs.Remove(t, "EncKey.bin");
    }
    assert Generated(t, id, run)["EncKey.json" := envelope] - {"EncKey.bin"} == Trio(t, id, run);
  }

  /** One tier's keys: generated, then the encryption key wrapped into its envelope. */
  method GenerateBundle(fs: FileSystem, t: Tier, id: string, run: nat) returns (r: Result<(), GenError>)
    modifies fs
    ensures fs.dirs.At(Other(t)) == old(fs.dirs.At(Other(t)))
    ensures fs.dirs.Foreign(t) == old(fs.dirs.Foreign(t)) + Leftover(fs, old(fs.ops), old(fs.dirs.In(t)), t, id, run)
    ensures r.Ok? <==> old(fs.dirs.In(t)) == map[] && AllFine(fs, old(fs.ops), STEPS)
    ensures r.Ok? ==> fs.ops == old(fs.ops) + STEPS && fs.dirs.At(t) == Some(Trio(t, id, run))
    ensures r == Err(NotEmpty) <==> old(fs.dirs.In(t)) != map[] && AllFine(fs, old(fs.ops), 3)
    ensures r != Err(KeysAlreadyExist)
  {
    hide Dirs.Foreign, TmpLeft, Generated, Trio;
    var ok := fs.MkdirAll(t);
    if !ok {
      return Err(StepFailed);
    }
    r := Generate(fs, t, id, run);
    if r.Err? {
      return;
    }
    ok := WrapEncKey(fs, t, id, run);
    r := if ok then Ok(()) else Err(StepFailed);
  }

  method RemoveKeyArtifacts(fs: FileSystem, t: Tier)
    modifies fs`dirs
    ensures fs.dirs == if old(fs.dirs.At(t)).Some? then old(fs.dirs).With(t, Some(old(fs.dirs.In(t)) - SLOT_FILES))
                       else old(fs.dirs)
  {
    ghost var files := fs.dirs.In(t);
    fs.Discard(t, "EncKey.bin");
    fs.Discard(t, "EvalKey.bin");
    fs.Discard(t, "SecKey.bin");
    fs.Discard(t, "EncKey.json");
    fs.Discard(t, "EvalKey.json");
    fs.Discard(t, "SecKey.json");
    assert files
        - {"EncKey.bin"} - {"EvalKey.bin"} - {"SecKey.bin"} - {"EncKey.json"} - {"EvalKey.json"} - {"SecKey.json"}
        == files - SLOT_FILES;
  }

  /** A directory survives the rollback only if it holds files. */
  function Kept(files: Files): Option<Files> {
    if files == map[] then None else Some(files)
  }

  method Rollback(fs: FileSystem)
    modifies fs`dirs
    ensures fs.dirs == Dirs(Kept(old(fs.dirs.Foreign(Rmp))), Kept(old(fs.dirs.Foreign(Mm))))
  {
    RemoveKeyArtifacts(fs, Rmp);
    fs.DiscardEmptyDir(Rmp);
    RemoveKeyArtifacts(fs, Mm);
    fs.DiscardEmptyDir(Mm);
  }

  /** The temporary files that a failed generation leaves behind in the tiers, when it begins at step `from` on the
      directories `was`; the second tier is reached only if the first one worked. */
  ghost function Leftovers(fs: FileSystem, from: nat, was: Dirs, id: string, run: nat): (Files, Files) {
    (Leftover(fs, from, was.In(Rmp), Rmp, id, run),
     if was.In(Rmp) == map[] && AllFine(fs, from, STEPS)
     then Leftover(fs, from + STEPS, was.In(Mm), Mm, id, run) else map[])
  }

  /** At most one of the steps that a generation begun at step `from` can take fails. */
  ghost predicate OneFault(fs: FileSystem, from: nat) {
    forall j, k :: from <= j < k < from + 20 ==> fs.FaultAt(j) == Fine || fs.FaultAt(k) == Fine
  }

  /** The files are those of `was`, and exactly the directories that hold files are there. */
  predicate Restored(was: Dirs, now: Dirs) {
    && now.In(Rmp) == was.In(Rmp) && (now.rmp == None <==> was.In(Rmp) == map[])
    && now.In(Mm) == was.In(Mm) && (now.mm == None <==> was.In(Mm) == map[])
  }

  lemma OneFaultLeavesNothing(fs: FileSystem, from: nat, was: Dirs, id: string, run: nat)
    requires OneFault(fs, from)
    ensures Leftovers(fs, from, was, id, run) == (map[], map[])
  {
    var a, b := from + 6, from + 16;
    assert fs.FaultAt(a) == Fine || fs.FaultAt(a + 1) == Fine;
    assert fs.FaultAt(a + 1) == Fine || fs.FaultAt(a + 2) == Fine;
    assert fs.FaultAt(b) == Fine || fs.FaultAt(b + 1) == Fine;
    assert fs.FaultAt(b + 1) == Fine || fs.FaultAt(b + 2) == Fine;
  }

  lemma NothingLeftRestores(was: Dirs, now: Dirs, rmp: Files, mm: Files)
    requires now == Dirs(Kept(was.In(Rmp) + rmp), Kept(was.In(Mm) + mm))
    ensures rmp == map[] && mm == map[] ==> Restored(was, now)
  {
    assert was.In(Rmp) + map[] == was.In(Rmp) && was.In(Mm) + map[] == was.In(Mm);
  }

  ghost predicate NotEmptySeen(fs: FileSystem, from: nat, was: Dirs) {
    if was.In(Rmp) != map[] then AllFine(fs, from, 3)
    else was.In(Mm) != map[] && AllFine(fs, from, STEPS + 3)
  }

  lemma SameFiles(d: Dirs, e: Dirs, t: Tier)
    requires d.At(t) == e.At(t)
    ensures d.Foreign(t) == e.Foreign(t)
  {
  }

  lemma NoSlots(d: Dirs, t: Tier)
    requires !AnySlotExists(d.In(t))
    ensures d.Foreign(t) == d.In(t)
  {
    SlotsAreTheSixNames(d.In(t));
    assert d.In(t) - SLOT_FILES == d.In(t);
  }

  /** Generates both tiers. A key set that is already there is reported and not touched. A failure at any step
      leaves exactly the files from before and only the directories that hold some; only a second failure, of the
      removal of a temporary file, can leave that file behind. */
  method GenerateKeys(fs: FileSystem, id: string, run: nat) returns (r: Result<(), GenError>)
    modifies fs
    ensures r == Err(KeysAlreadyExist) <==>
      AnySlotExists(old(fs.dirs.In(Rmp))) || AnySlotExists(old(fs.dirs.In(Mm)))
    ensures r == Err(KeysAlreadyExist) ==> fs.dirs == old(fs.dirs)
    ensures r == Err(NotEmpty) || r == Err(StepFailed) ==>
      var (rmp, mm) := Leftovers(fs, old(fs.ops), old(fs.dirs), id, run);
      fs.dirs == Dirs(Kept(old(fs.dirs.In(Rmp)) + rmp), Kept(old(fs.dirs.In(Mm)) + mm))
    ensures (r == Err(NotEmpty) || r == Err(StepFailed)) && OneFault(fs, old(fs.ops)) ==>
      Restored(old(fs.dirs), fs.dirs)
    ensures r == Err(NotEmpty) <==> r != Err(KeysAlreadyExist) && NotEmptySeen(fs, old(fs.ops), old(fs.dirs))
    ensures r.Ok? <==>
      old(fs.dirs.In(Rmp)) == map[] && old(fs.dirs.In(Mm)) == map[] && AllFine(fs, old(fs.ops), 2 * STEPS)
    ensures r.Ok? ==> fs.dirs == Dirs(Some(Trio(Rmp, id, run)), Some(Trio(Mm, id, run)))
  {
    hide Dirs.Foreign, TmpLeft, OneFault, Restored;
    if AnySlotExists(fs.dirs.In(Rmp)) || AnySlotExists(fs.dirs.In(Mm)) {
      return Err(KeysAlreadyExist);
    }
    NoSlots(fs.dirs, Rmp);
    NoSlots(fs.dirs, Mm);
    r := GenerateBundle(fs, Rmp, id, run);
    SameFiles(old(fs.dirs), fs.dirs, Mm);
    if r.Ok? {
      ghost var half := fs.dirs;
      r := GenerateBundle(fs, Mm, id, run);
      SameFiles(half, fs.dirs, Rmp);
    }
    if r.Err? {
      Rollback(fs);
      assert old(fs.dirs.In(Mm)) + map[] == old(fs.dirs.In(Mm));
      ghost var left := Leftovers(fs, old(fs.ops), old(fs.dirs), id, run);
      NothingLeftRestores(old(fs.dirs), fs.dirs, left.0, left.1);
      if OneFault(fs, old(fs.ops)) {
        OneFaultLeavesNothing(fs, old(fs.ops), old(fs.dirs), id, run);
      }
    }
  }

  lemma LeftoversHaveNoSlots(fs: FileSystem, from: nat, was: Dirs, id: string, run: nat)
    ensures var (rmp, mm) := Leftovers(fs, from, was, id, run);
      && (AnySlotExists(was.In(Rmp) + rmp) <==> AnySlotExists(was.In(Rmp)))
      && (AnySlotExists(was.In(Mm) + mm) <==> AnySlotExists(was.In(Mm)))
  {
  }

  /** Generating again after a generation that failed: its leftovers never reach the slot guard, and they block the
      second run only through a temporary file that could not be removed; then, and only then, the second run
      fails although its own steps work and the directories held no files to begin with. */
  method GenerateAgain(fs: FileSystem, id: string, run: nat)
    returns (first: Result<(), GenError>, second: Result<(), GenError>, ghost mid: nat)
    modifies fs
    ensures first == Err(StepFailed) || first == Err(NotEmpty) ==>
      && second != Err(KeysAlreadyExist)
      && (second.Ok? <==>
            && old(fs.dirs.In(Rmp)) == map[] && old(fs.dirs.In(Mm)) == map[]
            && Leftovers(fs, old(fs.ops), old(fs.dirs), id, run) == (map[], map[])
            && AllFine(fs, mid, 2 * STEPS))
    ensures (first == Err(StepFailed) || first == Err(NotEmpty)) && OneFault(fs, old(fs.ops)) ==>
      (second.Ok? <==>
         old(fs.dirs.In(Rmp)) == map[] && old(fs.dirs.In(Mm)) == map[] && AllFine(fs, mid, 2 * STEPS))
    ensures first.Ok? ==>
      second == Err(KeysAlreadyExist) && fs.dirs == Dirs(Some(Trio(Rmp, id, run)), Some(Trio(Mm, id, run)))
    ensures first == Err(KeysAlreadyExist) ==> second == first && fs.dirs == old(fs.dirs)
  {
    hide AllFine, Leftover, OneFault, Restored;
    first := GenerateKeys(fs, id, run);
    mid := fs.ops;
    if OneFault(fs, old(fs.ops)) {
      OneFaultLeavesNothing(fs, old(fs.ops), old(fs.dirs), id, run);
    }
    LeftoversHaveNoSlots(fs, old(fs.ops), old(fs.dirs), id, run);
    second := GenerateKeys(fs, id, run + 1);
  }

  /** The guard against blocked retries fails in one case: on a fresh key path the temporary file of the secret key is
      torn and its removal fails. The rollback does not know its name, so the next generation meets a directory
      that is not empty, although every step of its own works. */
  method RetryBlockedByTmp(id: string, run: nat) returns (first: Result<(), GenError>, second: Result<(), GenError>)
    ensures first == Err(StepFailed) && second == Err(NotEmpty)
  {
    var faults := [Fine, Fine, Fine, Fine, Fine, Fine, Torn, Clean];
    var fs := new FileSystem(Dirs(None, None), faults);
    assert fs.FaultAt(6) == Torn && fs.FaultAt(7) == Clean;
    var none := fs.dirs;
    assert none.In(Rmp) == map[] && none.In(Mm) == map[];
    assert AllFine(fs, 0, 6) && !AllFine(fs, 0, STEPS);
    assert Leftovers(fs, 0, none, id, run) == (map[SEC_TMP := Junk("")], map[]);
    first := GenerateKeys(fs, id, run);
    assert !AllFine(fs, 0, 2 * STEPS);
    assert first.Err? && !first.error.KeysAlreadyExist? && !first.error.NotEmpty?;
    assert SEC_TMP in fs.dirs.In(Rmp) && fs.dirs.In(Mm) == map[];
    assert fs.dirs.In(Rmp).Keys == {SEC_TMP};
    var later := new FileSystem(fs.dirs, []);
    second := GenerateKeys(later, id, run + 1);
  }
}
