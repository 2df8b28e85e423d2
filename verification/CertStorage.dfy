/**
 Certificate files on disk: one directory per domain with fullchain.pem,
 privkey.pem and chain.pem. A save writes up to three files and cleans up after
 a failed write; every write and every removal may fail.

 Each file remembers which save call wrote it, so that "both files come from
 the same bundle" can be said of the files themselves.
 */
module CertStorage {
  import opened Basics
  import opened AcmeClient

  /** Whole(n): save call number n wrote the file completely. Torn: a write failed halfway. */
  datatype Origin = Whole(save: nat) | Torn

  datatype File = File(data: Bytes, origin: Origin)

  datatype Folder = Folder(certificate: Option<File>, key: Option<File>, chain: Option<File>)

  const EMPTY_FOLDER := Folder(None, None, None)

  /** `saves` counts the save calls so far. */
  datatype Disk = Disk(folders: map<string, Folder>, saves: nat)

  const EMPTY_DISK := Disk(map[], 0)

  /** A failed write either leaves the file as it was or leaves something else in it. */
  datatype Write = Written | Untouched | Damaged(left: Bytes)

  datatype SaveFaults = SaveFaults(
    directoryMade: bool,
    certificate: Write, key: Write, chain: Write,
    certificateRemoved: bool, keyRemoved: bool)

  const NO_FAULTS := SaveFaults(true, Written, Written, Written, true, true)

  function FolderOf(d: Disk, name: string): Folder {
    if name in d.folders then d.folders[name] else EMPTY_FOLDER
  }

  function AfterWrite(before: Option<File>, data: Bytes, w: Write, save: nat): Option<File> {
    match w
    case Written => Some(File(data, Whole(save)))
    case Untouched => before
    case Damaged(left) => Some(File(left, Torn))
  }

  function AfterRemove(before: Option<File>, removed: bool): Option<File> {
    if removed then None else before
  }

  predicate Acceptable(name: string, b: Bundle) {
    name != "" && b.certificate != "" && b.privateKey != ""
  }

  /** The save call reports success. */
  predicate SaveOk(name: string, b: Bundle, f: SaveFaults) {
    && Acceptable(name, b) && f.directoryMade
    && f.certificate.Written? && f.key.Written? && (b.chain == "" || f.chain.Written?)
  }

  /** The folder a save call leaves behind, by the first step that failed. */
  function SavedFolder(before: Folder, b: Bundle, f: SaveFaults, save: nat): Folder {
    var certificate := AfterWrite(before.certificate, b.certificate, f.certificate, save);
    var key := AfterWrite(before.key, b.privateKey, f.key, save);
    var chain := AfterWrite(before.chain, b.chain, f.chain, save);
    if !f.certificate.Written? then before.(certificate := certificate)
    else if !f.key.Written? then
      before.(certificate := AfterRemove(certificate, f.certificateRemoved), key := key)
    else if b.chain == "" then before.(certificate := certificate, key := key)
    else if f.chain.Written? then Folder(certificate, key, chain)
    else Folder(AfterRemove(certificate, f.certificateRemoved), AfterRemove(key, f.keyRemoved), chain)
  }

  function Save(d: Disk, name: string, b: Bundle, f: SaveFaults): Disk {
    if !Acceptable(name, b) || !f.directoryMade then d
    else Disk(d.folders[name := SavedFolder(FolderOf(d, name), b, f, d.saves)], d.saves + 1)
  }

  /** The removal of a directory: complete, or stopped with the files named still there. */
  datatype Removal = Removed | Stopped(certificateKept: bool, keyKept: bool, chainKept: bool)

  function Remaining(before: Folder, r: Removal): Folder {
    match r
    case Removed => EMPTY_FOLDER
    case Stopped(certificate, key, chain) =>
      Folder(AfterRemove(before.certificate, !certificate),
             AfterRemove(before.key, !key),
             AfterRemove(before.chain, !chain))
  }

  function Delete(d: Disk, name: string, r: Removal): Disk {
    if name == "" || name !in d.folders then d
    else if r.Removed? then d.(folders := d.folders - {name})
    else d.(folders := d.folders[name := Remaining(d.folders[name], r)])
  }

  predicate Exists(d: Disk, name: string) {
    FolderOf(d, name).certificate.Some? && FolderOf(d, name).key.Some?
  }

  /** What LoadCertificate reads; the chain is empty when there is no chain file. */
  datatype Loaded = Loaded(certificate: Bytes, key: Bytes, chain: Bytes)

  function Load(d: Disk, name: string): Option<Loaded> {
    var folder := FolderOf(d, name);
    if name == "" || folder.certificate.None? || folder.key.None? then None
    else Some(Loaded(folder.certificate.value.data, folder.key.value.data,
                     if folder.chain.Some? then folder.chain.value.data else ""))
  }

  /** The storage with the files it writes, removes and cleans up one after the other. */
  class Storage {
    var folders: map<string, Folder>
    var saves: nat

    ghost function Value(): Disk
      reads this
    {
      Disk(folders, saves)
    }

    constructor ()
      ensures Value() == EMPTY_DISK
    {
      folders, saves := map[], 0;
    }

    /** Replaces the folder of a domain. */
    method Put(name: string, folder: Folder, ghost first: map<string, Folder>)
      requires folders - {name} == first - {name}
      modifies this`folders
      ensures folders == first[name := folder]
    {
      ghost var elsewhere := first - {name};
      assert forall other :: other != name ==> (other in folders <==> other in elsewhere);
      assert forall other :: other in elsewhere ==> folders[other] == elsewhere[other];
      folders := folders[name := folder];
    }

    method SaveCertificate(name: string, b: Bundle, f: SaveFaults) returns (ok: bool)
      modifies this
      ensures Value() == Save(old(Value()), name, b, f)
      ensures ok == SaveOk(name, b, f)
    {
      ok := false;
      if name == "" || b.certificate == "" || b.privateKey == "" || !f.directoryMade {
        return;
      }
      var save := saves;
      saves := saves + 1;
      ghost var first := folders;
      var folder := if name in folders then folders[name] else EMPTY_FOLDER;
      folder := folder.(certificate := AfterWrite(folder.certificate, b.certificate, f.certificate, save));
      Put(name, folder, first);
      if !f.certificate.Written? {
        return;
      }
      folder := folder.(key := AfterWrite(folder.key, b.privateKey, f.key, save));
      Put(name, folder, first);
      if !f.key.Written? {
        folder := folder.(certificate := AfterRemove(folder.certificate, f.certificateRemoved));
        Put(name, folder, first);
        return;
      }
      if b.chain != "" {
        folder := folder.(chain := AfterWrite(folder.chain, b.chain, f.chain, save));
        Put(name, folder, first);
        if !f.chain.Written? {
          folder := folder.(certificate := AfterRemove(folder.certificate, f.certificateRemoved));
          folder := folder.(key := AfterRemove(folder.key, f.keyRemoved));
          Put(name, folder, first);
          return;
        }
      }
      ok := true;
    }

    method DeleteCertificate(name: string, r: Removal) returns (ok: bool)
      modifies this
      ensures Value() == Delete(old(Value()), name, r)
      ensures ok <==> name != "" && (name !in old(folders) || r.Removed?)
    {
      if name == "" {
        return false;
      }
      if name !in folders {
        return true;
      }
      if r.Stopped? {
        folders := folders[name := Remaining(folders[name], r)];
        return false;
      }
      folders := folders - {name};
      ok := true;
    }
  }

  // ------------------------------------------------- pairs from one bundle

  /** A certificate and a key file that both exist were written by the same save call. */
  predicate Paired(folder: Folder) {
    folder.certificate.Some? && folder.key.Some? ==>
      folder.certificate.value.origin.Whole? && folder.key.value.origin == folder.certificate.value.origin
  }

  ghost predicate AllPaired(d: Disk) {
    forall name :: Paired(FolderOf(d, name))
  }

  /** No file claims a save call that has not happened. */
  ghost predicate Dated(d: Disk) {
    forall name :: DatedFile(FolderOf(d, name).certificate, d.saves) && DatedFile(FolderOf(d, name).key, d.saves)
  }

  predicate DatedFile(f: Option<File>, saves: nat) {
    f.Some? && f.value.origin.Whole? ==> f.value.origin.save < saves
  }

  /**
   The faults that part a pair: a certificate write that fails after changing
   the file while an older key is there; or a failed key write whose clean-up
   fails too, with an older or a damaged key left.
   */
  predicate PartsPair(before: Folder, f: SaveFaults) {
    || (f.certificate.Damaged? && before.key.Some?)
    || (f.certificate.Written? && !f.key.Written? && !f.certificateRemoved && (f.key.Damaged? || before.key.Some?))
  }

  /** From a paired folder, a save leaves a paired folder exactly when none of those faults happened. */
  lemma SaveKeepsPairExactly(d: Disk, name: string, b: Bundle, f: SaveFaults)
    requires AllPaired(d) && Dated(d)
    requires Acceptable(name, b) && f.directoryMade
    ensures AllPaired(Save(d, name, b, f)) <==> !PartsPair(FolderOf(d, name), f)
    ensures Dated(Save(d, name, b, f))
  {
    var e := Save(d, name, b, f);
    assert Paired(FolderOf(d, name)) && DatedFile(FolderOf(d, name).key, d.saves);
    forall other
      ensures other != name ==> FolderOf(e, other) == FolderOf(d, other)
      ensures DatedFile(FolderOf(e, other).certificate, e.saves) && DatedFile(FolderOf(e, other).key, e.saves)
    {
      assert DatedFile(FolderOf(d, other).certificate, d.saves) && DatedFile(FolderOf(d, other).key, d.saves);
    }
    assert Paired(FolderOf(e, name)) <==> !PartsPair(FolderOf(d, name), f);
  }

  /**
   A concrete renewal: the new certificate is written but its permissions
   cannot be set, so the save stops there. What is read afterwards is the new
   certificate with the old key.
   */
  lemma DamagedWriteParts(name: string, first: Bundle, second: Bundle)
    requires Acceptable(name, first) && Acceptable(name, second) && first.chain == ""
    ensures var d := Save(EMPTY_DISK, name, first, NO_FAULTS);
            var e := Save(d, name, second, NO_FAULTS.(certificate := Damaged(second.certificate)));
            && AllPaired(d) && !AllPaired(e)
            && Load(d, name) == Some(Loaded(first.certificate, first.privateKey, ""))
            && Load(e, name) == Some(Loaded(second.certificate, first.privateKey, ""))
  {
    var f := NO_FAULTS.(certificate := Damaged(second.certificate));
    SaveKeepsPairExactly(EMPTY_DISK, name, first, NO_FAULTS);
    SaveKeepsPairExactly(Save(EMPTY_DISK, name, first, NO_FAULTS), name, second, f);
  }

  /**
   A failed save cleans up after itself when writes fail cleanly and removals
   work: no file of the failed bundle's pair stays. If the certificate had been
   written, there is nothing left to load; otherwise what loaded before does.
   */
  lemma FailedSaveLeavesNothing(d: Disk, name: string, b: Bundle, f: SaveFaults)
    requires Dated(d) && CleanFaults(f) && !SaveOk(name, b, f)
    ensures var folder := FolderOf(Save(d, name, b, f), name);
            && (folder.certificate.Some? ==> folder.certificate.value.origin != Whole(d.saves))
            && (folder.key.Some? ==> folder.key.value.origin != Whole(d.saves))
    ensures Load(Save(d, name, b, f), name) ==
            if Acceptable(name, b) && f.directoryMade && f.certificate.Written? then None else Load(d, name)
    ensures Acceptable(name, b) && f.directoryMade && f.certificate.Written? && f.key.Written? ==>
              !Exists(Save(d, name, b, f), name)
              && FolderOf(Save(d, name, b, f), name).certificate.None? && FolderOf(Save(d, name, b, f), name).key.None?
  {
    assert DatedFile(FolderOf(d, name).certificate, d.saves) && DatedFile(FolderOf(d, name).key, d.saves);
  }

  // ----------------------------------------------------------------- runs

  datatype Op = SaveOp(name: string, bundle: Bundle, faults: SaveFaults) | DeleteOp(name: string, removal: Removal)

  function Do(d: Disk, op: Op): Disk {
    match op
    case SaveOp(name, b, f) => Save(d, name, b, f)
    case DeleteOp(name, r) => Delete(d, name, r)
  }

  function Run(d: Disk, ops: seq<Op>): Disk
    decreases |ops|
  {
    if ops == [] then d else Run(Do(d, ops[0]), ops[1..])
  }

  /** Writes fail cleanly and removals succeed. */
  predicate CleanFaults(f: SaveFaults) {
    !f.certificate.Damaged? && !f.key.Damaged? && f.certificateRemoved && f.keyRemoved
  }

  predicate CleanRun(ops: seq<Op>) {
    forall i :: 0 <= i < |ops| && ops[i].SaveOp? ==> CleanFaults(ops[i].faults)
  }

  /** The operation is a save that parts the pair of its domain. */
  predicate PartsNow(d: Disk, op: Op) {
    && op.SaveOp? && Acceptable(op.name, op.bundle) && op.faults.directoryMade
    && PartsPair(FolderOf(d, op.name), op.faults)
  }

  predicate NeverParts(d: Disk, ops: seq<Op>)
    decreases |ops|
  {
    ops == [] || (!PartsNow(d, ops[0]) && NeverParts(Do(d, ops[0]), ops[1..]))
  }

  /** At every point of the run certificate and key belong together. */
  ghost predicate PairedAlong(d: Disk, ops: seq<Op>)
    decreases |ops|
  {
    AllPaired(d) && (ops == [] || PairedAlong(Do(d, ops[0]), ops[1..]))
  }

  lemma DeleteKeepsPairs(d: Disk, name: string, r: Removal)
    requires AllPaired(d) && Dated(d)
    ensures AllPaired(Delete(d, name, r)) && Dated(Delete(d, name, r))
  {
    var e := Delete(d, name, r);
    forall other
      ensures Paired(FolderOf(e, other))
      ensures DatedFile(FolderOf(e, other).certificate, e.saves) && DatedFile(FolderOf(e, other).key, e.saves)
    {
      assert FolderOf(e, other) == FolderOf(d, other) || FolderOf(e, other) == Remaining(FolderOf(d, other), r);
      assert Paired(FolderOf(d, other));
      assert DatedFile(FolderOf(d, other).certificate, d.saves) && DatedFile(FolderOf(d, other).key, d.saves);
    }
  }

  lemma StepKeepsPairsExactly(d: Disk, op: Op)
    requires AllPaired(d) && Dated(d)
    ensures AllPaired(Do(d, op)) <==> !PartsNow(d, op)
    ensures Dated(Do(d, op))
  {
    hide AllPaired, Dated, PartsPair;
    match op
    case SaveOp(name, b, f) =>
      if Acceptable(name, b) && f.directoryMade {
        SaveKeepsPairExactly(d, name, b, f);
      }
    case DeleteOp(name, r) => DeleteKeepsPairs(d, name, r);
  }

  /**
   Over every run of saves and deletes, whatever fails, certificate and key
   belong together at every point exactly when they do at the start and no save
   meets one of the parting faults when it is made.
   */
  lemma {:induction false} RunKeepsPairsExactly(d: Disk, ops: seq<Op>)
    requires Dated(d)
    ensures PairedAlong(d, ops) <==> AllPaired(d) && NeverParts(d, ops)
    ensures PairedAlong(d, ops) ==> AllPaired(Run(d, ops)) && Dated(Run(d, ops))
    decreases |ops|
  {
    hide AllPaired, Dated, PartsNow, Do;
    if ops != [] && AllPaired(d) {
      StepKeepsPairsExactly(d, ops[0]);
      RunKeepsPairsExactly(Do(d, ops[0]), ops[1..]);
    }
  }

  lemma {:induction false} CleanRunNeverParts(d: Disk, ops: seq<Op>)
    requires CleanRun(ops)
    ensures NeverParts(d, ops)
    decreases |ops|
  {
    if ops != [] {
      CleanRunNeverParts(Do(d, ops[0]), ops[1..]);
    }
  }

  /** In particular when writes fail cleanly and clean-ups succeed. */
  lemma RunKeepsPairs(d: Disk, ops: seq<Op>)
    requires AllPaired(d) && Dated(d) && CleanRun(ops)
    ensures AllPaired(Run(d, ops)) && Dated(Run(d, ops))
  {
    CleanRunNeverParts(d, ops);
    RunKeepsPairsExactly(d, ops);
  }

  // ------------------------------------------------------------ round trip

  /**
   A successful save is read back: certificate, key and, if the bundle has one,
   the chain. A bundle without a chain leaves an older chain file in place, and
   that is what is read. Other domains are untouched, and after a successful
   delete there is nothing to read.
   */
  lemma SaveThenLoad(d: Disk, name: string, b: Bundle, f: SaveFaults)
    requires SaveOk(name, b, f)
    ensures var e := Save(d, name, b, f);
            && Exists(e, name)
            && Load(e, name) == Some(Loaded(b.certificate, b.privateKey,
                 if b.chain != "" || FolderOf(d, name).chain.None? then b.chain
                 else FolderOf(d, name).chain.value.data))
            && (forall other :: other != name ==> Load(e, other) == Load(d, other))
            && Load(Delete(e, name, Removed), name) == None
  {
    var e := Save(d, name, b, f);
    forall other
      ensures other != name ==> Load(e, other) == Load(d, other)
    {
    }
  }
}
