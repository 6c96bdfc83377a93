// The durable entry directory of one control plane: files, records, and what a
// crash leaves of them.
//
// Directory operations take effect at once in the live view and become durable,
// in the order they were made, no later than the next directory sync. A power
// loss keeps some prefix of those made since; a file's contents are only certain
// once they have been synced.
module ControlPlaneDisk {
  import opened Prelude
  import opened ControlPlaneNames

  type FileId = nat

  datatype Name =
    | LockName
    | RecordName(file: RecordFile)
    | TempName(destination: RecordFile, pid: nat, incarnation: string)
    | ForeignName(text: string)

  // The text a name stands for.
  function NameText(name: Name): string {
    match name
    case LockName => LOCK_FILENAME
    case RecordName(file) => RecordFilename(file)
    case TempName(destination, pid, incarnation) => TempFilename(destination, pid, incarnation)
    case ForeignName(text) => text
  }

  predicate FixedText(text: string) {
    text == LOCK_FILENAME || text == STABLE_FILENAME || text == OWNER_FILENAME
  }

  // A temporary name of an incarnation, or a text that is none of ours.
  predicate WellNamed(name: Name) {
    match name
    case TempName(_, _, incarnation) => ValidUuid(incarnation)
    case ForeignName(text) => !FixedText(text) && !MatchesTemp(text)
    case _ => true
  }

  // The inventory tells names apart by their text just as the model does by
  // their constructor.
  lemma NameClassified(name: Name)
    requires name.TempName? ==> ValidUuid(name.incarnation)
    requires name.ForeignName? ==> !FixedText(name.text) && !MatchesTemp(name.text)
    ensures FixedText(NameText(name)) <==> name.LockName? || name.RecordName?
    ensures MatchesTemp(NameText(name)) <==> name.TempName?
  {
    match name
    case LockName => assert LOCK_FILENAME[0] == 'o' && TempPrefix(StableFile)[0] == '.'
        && TempPrefix(OwnerFile)[0] == '.';
    case RecordName(file) =>
      assert RecordFilename(file)[0] != '.' && TempPrefix(StableFile)[0] == '.' && TempPrefix(OwnerFile)[0] == '.';
    case TempName(destination, pid, incarnation) =>
      TempFilenameRecognised(destination, pid, incarnation);
      TempFilenameDistinct(destination, pid, incarnation);
      assert RecordFilename(StableFile) == STABLE_FILENAME && RecordFilename(OwnerFile) == OWNER_FILENAME;
    case ForeignName(_) =>
  }

  // Distinct names are distinct texts.
  lemma NameTextInjective(a: Name, b: Name)
    requires WellNamed(a) && WellNamed(b) && NameText(a) == NameText(b)
    ensures a == b
  {
    NameClassified(a);
    NameClassified(b);
    if a.TempName? && b.TempName? {
      TempFilenameInjective(a.destination, a.pid, a.incarnation, b.destination, b.pid, b.incarnation);
    } else if !a.TempName? && !a.ForeignName? {
      assert LOCK_FILENAME[0] == 'o' && LOCK_FILENAME[1] == 'w' && |LOCK_FILENAME| == 14;
      assert STABLE_FILENAME[0] == 'c' && |OWNER_FILENAME| == 10 && OWNER_FILENAME[0] == 'o';
    }
  }

  datatype Permission =
    | OwnerRead | OwnerWrite | OwnerExecute
    | GroupRead | GroupWrite | GroupExecute
    | OtherRead | OtherWrite | OtherExecute

  type Mode = set<Permission>

  // 0600, the only mode any check accepts.
  const PROTECTED: Mode := {OwnerRead, OwnerWrite}

  // What `open(O_CREAT, 0600)` leaves before `fchmod`.
  function CreationMode(umask: Mode): Mode {
    PROTECTED - umask
  }

  predicate KeepsOwnerAccess(umask: Mode) {
    OwnerRead !in umask && OwnerWrite !in umask
  }

  /* ------------------------------ records ------------------------------ */

  datatype Root = Root(path: string, digest: string, workspaceInode: nat)

  datatype StableRecord = StableRecord(controlPlaneId: string, rootPath: string, digest: string)

  datatype OwnerState = Owned | Released

  datatype OwnerRecord = OwnerRecord(
    formatVersion: nat,
    state: OwnerState,
    controlPlaneId: string,
    incarnationId: string,
    pid: nat,
    hostname: string,
    rootPath: string,
    digest: string,
    workspaceInode: nat,
    lockInode: FileId,
    acquiredAt: int,
    releasedAt: Option<int>)

  datatype JsonValue = StableJson(stable: StableRecord) | OwnerJson(owner: OwnerRecord) | OtherJson

  // `Torn` stands for bytes that are not JSON, an empty file included.
  datatype Content = Torn | Json(value: JsonValue)

  predicate StableSchema(record: StableRecord) {
    ValidUuid(record.controlPlaneId) && record.rootPath != "" && ValidDigest(record.digest)
  }

  // Format 1 differs from format 2 only in two device numbers, which no
  // comparison reads.
  predicate OwnerSchema(record: OwnerRecord) {
    && (record.formatVersion == 1 || record.formatVersion == 2)
    && ValidUuid(record.controlPlaneId)
    && ValidUuid(record.incarnationId)
    && record.pid > 0
    && record.hostname != ""
    && record.rootPath != ""
    && ValidDigest(record.digest)
    && (record.state == Released <==> record.releasedAt.Some?)
  }

  predicate StableMatchesRoot(stable: StableRecord, root: Root) {
    stable.rootPath == root.path && stable.digest == root.digest
  }

  predicate RecordsMatch(stable: StableRecord, owner: OwnerRecord, root: Root, lock: FileId) {
    && stable.controlPlaneId == owner.controlPlaneId
    && stable.rootPath == root.path
    && owner.rootPath == root.path
    && stable.digest == root.digest
    && owner.digest == root.digest
    && owner.workspaceInode == root.workspaceInode
    && owner.lockInode == lock
  }

  /* --------------------------- files and names -------------------------- */

  datatype Inode = Inode(
    regular: bool,
    ownUid: bool,
    birthMode: Mode,
    mode: Mode,
    content: Content,
    synced: bool)

  predicate Protected(inode: Inode) {
    inode.regular && inode.ownUid && inode.mode == PROTECTED
  }

  datatype ReadFailure = NotProtected | MalformedJson | MalformedRecord

  datatype Reading<+T> = Absent | Unreadable(failure: ReadFailure) | Present(record: T)

  function ReadStable(inodes: map<FileId, Inode>, names: map<Name, FileId>): Reading<StableRecord> {
    if RecordName(StableFile) !in names || names[RecordName(StableFile)] !in inodes then Absent
    else
      var inode := inodes[names[RecordName(StableFile)]];
      if !Protected(inode) then Unreadable(NotProtected)
      else match inode.content
        case Torn => Unreadable(MalformedJson)
        case Json(StableJson(record)) =>
          if StableSchema(record) then Present(record) else Unreadable(MalformedRecord)
        case Json(_) => Unreadable(MalformedRecord)
  }

  function ReadOwner(inodes: map<FileId, Inode>, names: map<Name, FileId>): Reading<OwnerRecord> {
    if RecordName(OwnerFile) !in names || names[RecordName(OwnerFile)] !in inodes then Absent
    else
      var inode := inodes[names[RecordName(OwnerFile)]];
      if !Protected(inode) then Unreadable(NotProtected)
      else match inode.content
        case Torn => Unreadable(MalformedJson)
        case Json(OwnerJson(record)) =>
          if OwnerSchema(record) then Present(record) else Unreadable(MalformedRecord)
        case Json(_) => Unreadable(MalformedRecord)
  }

  // The inventory's verdict on one directory entry.
  predicate SafeLeftover(inodes: map<FileId, Inode>, names: map<Name, FileId>, name: Name)
    requires name in names
  {
    match name
    case LockName => true
    case RecordName(_) => true
    case TempName(_, _, _) => names[name] in inodes && Protected(inodes[names[name]])
    case ForeignName(_) => false
  }

  predicate InventoryPasses(inodes: map<FileId, Inode>, names: map<Name, FileId>) {
    forall name | name in names :: SafeLeftover(inodes, names, name)
  }

  function Temps(names: map<Name, FileId>): set<Name> {
    set name | name in names && name.TempName?
  }

  /* ------------------------ directory and journal ----------------------- */

  // The owner-record installs a directory has seen, oldest first. Bookkeeping:
  // it travels with the directory so that a power loss takes back exactly the
  // installs whose renames it takes back.
  datatype Install =
    | OwnedBy(incarnation: string, recoveredFrom: Option<string>)
    | ReleasedBy(incarnation: string)

  datatype Entry = Entry(names: map<Name, FileId>, installs: seq<Install>)

  datatype DirectoryOp =
    | Link(name: Name, file: FileId)
    | Unlink(name: Name)
    | Rename(source: Name, destination: Name, installs: seq<Install>)

  function Apply(entry: Entry, op: DirectoryOp): Entry {
    match op
    case Link(name, file) => entry.(names := entry.names[name := file])
    case Unlink(name) => entry.(names := entry.names - {name})
    case Rename(source, destination, installs) =>
      if source in entry.names then
        Entry((entry.names - {source})[destination := entry.names[source]], entry.installs + installs)
      else entry
  }

  function Replay(entry: Entry, ops: seq<DirectoryOp>): Entry {
    if ops == [] then entry else Apply(Replay(entry, ops[..|ops| - 1]), ops[|ops| - 1])
  }

  datatype Disk = Disk(durable: Entry, pending: seq<DirectoryOp>, inodes: map<FileId, Inode>)

  // What a crash that keeps the first `kept` unsynced operations would leave.
  function At(disk: Disk, kept: nat): Entry
    requires kept <= |disk.pending|
  {
    Replay(disk.durable, disk.pending[..kept])
  }

  function Live(disk: Disk): Entry {
    At(disk, |disk.pending|)
  }

  function Append(disk: Disk, op: DirectoryOp): Disk {
    disk.(pending := disk.pending + [op])
  }

  function CreateFile(disk: Disk, name: Name, file: FileId, umask: Mode): Disk {
    var mode := CreationMode(umask);
    Append(disk.(inodes := disk.inodes[file := Inode(true, true, mode, mode, Torn, false)]), Link(name, file))
  }

  function ProtectFile(disk: Disk, file: FileId): Disk {
    if file in disk.inodes then disk.(inodes := disk.inodes[file := disk.inodes[file].(mode := PROTECTED)])
    else disk
  }

  function WriteAndSync(disk: Disk, file: FileId, value: JsonValue): Disk {
    if file in disk.inodes then
      disk.(inodes := disk.inodes[file := disk.inodes[file].(content := Json(value), synced := true)])
    else disk
  }

  function SyncDirectory(disk: Disk): Disk {
    Disk(Live(disk), [], disk.inodes)
  }

  // Unsynced contents are arbitrary afterwards; an unsynced mode may be the one
  // the file was created with.
  predicate SurvivesPowerLoss(before: map<FileId, Inode>, after: map<FileId, Inode>) {
    && before.Keys == after.Keys
    && forall file | file in before ::
      var was, now := before[file], after[file];
      if was.synced then now == was
      else
        && now.regular == was.regular && now.ownUid == was.ownUid && now.birthMode == was.birthMode
        && !now.synced && (now.mode == was.mode || now.mode == was.birthMode)
  }

  function AfterPowerLoss(disk: Disk, kept: nat, inodes: map<FileId, Inode>): Disk
    requires kept <= |disk.pending|
  {
    Disk(At(disk, kept), [], inodes)
  }

  lemma AtAppend(disk: Disk, op: DirectoryOp)
    ensures forall k: nat | k <= |disk.pending| :: At(Append(disk, op), k) == At(disk, k)
    ensures Live(Append(disk, op)) == Apply(Live(disk), op)
  {
    var after := Append(disk, op);
    forall k: nat | k <= |disk.pending|
      ensures At(after, k) == At(disk, k)
    {
      assert after.pending[..k] == disk.pending[..k];
    }
    assert after.pending[..|after.pending|] == after.pending;
    assert after.pending[..|after.pending| - 1] == disk.pending;
    assert disk.pending[..|disk.pending|] == disk.pending;
  }

  /* --------------------------- install histories ------------------------ */

  // The incarnation a reader of the owner record would recover from.
  function Unreleased(installs: seq<Install>): Option<string> {
    if installs != [] && installs[|installs| - 1].OwnedBy? then Some(installs[|installs| - 1].incarnation)
    else None
  }

  function UnreleasedBefore(installs: seq<Install>, i: nat): Option<string>
    requires i <= |installs|
  {
    if i > 0 && installs[i - 1].OwnedBy? then Some(installs[i - 1].incarnation) else None
  }

  // Every incarnation installs itself at most once, names the incarnation it
  // recovered from exactly when that one had not installed its release, and
  // releases only directly after its own install.
  predicate GoodInstalls(installs: seq<Install>) {
    && (forall i: nat | i < |installs| && installs[i].OwnedBy? ::
      installs[i].recoveredFrom == UnreleasedBefore(installs, i))
    && (forall i: nat | i < |installs| && installs[i].ReleasedBy? ::
      i > 0 && UnreleasedBefore(installs, i) == Some(installs[i].incarnation))
    && (forall i: nat, j: nat | i < j < |installs| && installs[i].OwnedBy? && installs[j].OwnedBy? ::
      installs[i].incarnation != installs[j].incarnation)
  }

  predicate HasInstalled(installs: seq<Install>, incarnation: string) {
    exists i: nat | i < |installs| :: installs[i].OwnedBy? && installs[i].incarnation == incarnation
  }

  predicate HasReleased(installs: seq<Install>, incarnation: string) {
    ReleasedBy(incarnation) in installs
  }

  lemma InstallKeepsEarlier(installs: seq<Install>, install: Install)
    requires GoodInstalls(installs)
    ensures forall i: nat | i < |installs| :: (installs + [install])[i] == installs[i]
    ensures forall i: nat | i <= |installs| ::
        UnreleasedBefore(installs + [install], i) == UnreleasedBefore(installs, i)
  {
  }

  lemma InstallOwned(installs: seq<Install>, incarnation: string, recoveredFrom: Option<string>)
    requires GoodInstalls(installs) && !HasInstalled(installs, incarnation)
    requires recoveredFrom == Unreleased(installs)
    ensures GoodInstalls(installs + [OwnedBy(incarnation, recoveredFrom)])
  {
    var after := installs + [OwnedBy(incarnation, recoveredFrom)];
    InstallKeepsEarlier(installs, OwnedBy(incarnation, recoveredFrom));
    forall i: nat | i < |after| && after[i].OwnedBy?
      ensures after[i].recoveredFrom == UnreleasedBefore(after, i)
    {
    }
    forall i: nat | i < |after| && after[i].ReleasedBy?
      ensures i > 0 && UnreleasedBefore(after, i) == Some(after[i].incarnation)
    {
    }
    forall i: nat, j: nat | i < j < |after| && after[i].OwnedBy? && after[j].OwnedBy?
      ensures after[i].incarnation != after[j].incarnation
    {
      assert after[i] == installs[i];
    }
  }

  lemma InstallReleased(installs: seq<Install>, incarnation: string)
    requires GoodInstalls(installs) && Unreleased(installs) == Some(incarnation)
    ensures GoodInstalls(installs + [ReleasedBy(incarnation)])
  {
    var after := installs + [ReleasedBy(incarnation)];
    forall i: nat | i < |installs|
      ensures after[i] == installs[i] && UnreleasedBefore(after, i) == UnreleasedBefore(installs, i)
    {
    }
  }

  /* ---------------------------- good directories ------------------------ */

  // What every directory state the protocol can leave satisfies, whatever a
  // crash keeps.
  predicate GoodNames(inodes: map<FileId, Inode>, used: set<string>, names: map<Name, FileId>) {
    forall name | name in names ::
      && !name.ForeignName?
      && names[name] in inodes
      && Protected(inodes[names[name]])
      && inodes[names[name]].birthMode == PROTECTED
      && (name.RecordName? ==> inodes[names[name]].synced)
      && (name.TempName? ==> name.incarnation in used && WellNamed(name))
  }

  predicate GoodRecords(root: Root, inodes: map<FileId, Inode>, names: map<Name, FileId>) {
    var stable, owner := ReadStable(inodes, names), ReadOwner(inodes, names);
    && !stable.Unreadable? && !owner.Unreadable?
    && (stable.Present? ==> StableMatchesRoot(stable.record, root))
    && (owner.Present? ==>
      stable.Present? && LockName in names && RecordsMatch(stable.record, owner.record, root, names[LockName]))
  }

  predicate GoodHistory(inodes: map<FileId, Inode>, used: set<string>, entry: Entry) {
    var owner := ReadOwner(inodes, entry.names);
    && GoodInstalls(entry.installs)
    && (forall i: nat | i < |entry.installs| :: entry.installs[i].incarnation in used)
    && (owner.Absent? <==> entry.installs == [])
    && (owner.Present? ==>
      var last := entry.installs[|entry.installs| - 1];
      owner.record.incarnationId == last.incarnation && (owner.record.state == Owned <==> last.OwnedBy?))
  }

  predicate GoodEntry(root: Root, inodes: map<FileId, Inode>, used: set<string>, entry: Entry) {
    && GoodNames(inodes, used, entry.names)
    && GoodRecords(root, inodes, entry.names)
    && GoodHistory(inodes, used, entry)
  }

  predicate CrashSafe(root: Root, used: set<string>, disk: Disk) {
    forall k: nat {:trigger GoodEntry(root, disk.inodes, used, At(disk, k))} | k <= |disk.pending| ::
      GoodEntry(root, disk.inodes, used, At(disk, k))
  }

  lemma AppendCrashSafe(root: Root, used: set<string>, disk: Disk, op: DirectoryOp)
    requires CrashSafe(root, used, disk)
    requires GoodEntry(root, disk.inodes, used, Apply(Live(disk), op))
    ensures CrashSafe(root, used, Append(disk, op))
  {
    AtAppend(disk, op);
    var after := Append(disk, op);
    forall k: nat | k <= |after.pending|
      ensures GoodEntry(root, after.inodes, used, At(after, k))
    {
      if k <= |disk.pending| {
        assert At(after, k) == At(disk, k);
      }
    }
  }

  lemma SyncCrashSafe(root: Root, used: set<string>, disk: Disk)
    requires CrashSafe(root, used, disk)
    ensures CrashSafe(root, used, SyncDirectory(disk))
  {
    var after := SyncDirectory(disk);
    assert after.pending[..0] == [];
    assert GoodEntry(root, disk.inodes, used, At(disk, |disk.pending|));
  }

  lemma MoreUsed(root: Root, used: set<string>, used': set<string>, disk: Disk)
    requires CrashSafe(root, used, disk) && used <= used'
    ensures CrashSafe(root, used', disk)
  {
    forall k: nat | k <= |disk.pending|
      ensures GoodEntry(root, disk.inodes, used', At(disk, k))
    {
      assert GoodEntry(root, disk.inodes, used, At(disk, k));
    }
  }

  // Changing, adding or losing the contents of files that are not synced never
  // disturbs a good directory, as long as their modes stay protected.
  predicate QuietInodeChange(before: map<FileId, Inode>, after: map<FileId, Inode>) {
    forall file | file in before ::
      && file in after
      && (before[file].synced ==> after[file] == before[file])
      && (Protected(before[file]) && before[file].birthMode == PROTECTED ==>
        Protected(after[file]) && after[file].birthMode == PROTECTED)
  }

  lemma QuietEntry(root: Root, before: map<FileId, Inode>, after: map<FileId, Inode>, used: set<string>, entry: Entry)
    requires QuietInodeChange(before, after)
    requires GoodEntry(root, before, used, entry)
    ensures GoodEntry(root, after, used, entry)
    ensures ReadStable(after, entry.names) == ReadStable(before, entry.names)
    ensures ReadOwner(after, entry.names) == ReadOwner(before, entry.names)
  {
  }

  lemma QuietCrashSafe(root: Root, used: set<string>, disk: Disk, inodes: map<FileId, Inode>)
    requires CrashSafe(root, used, disk) && QuietInodeChange(disk.inodes, inodes)
    ensures CrashSafe(root, used, disk.(inodes := inodes))
  {
    var after := disk.(inodes := inodes);
    forall k: nat | k <= |disk.pending|
      ensures GoodEntry(root, inodes, used, At(after, k))
    {
      assert At(after, k) == At(disk, k);
      QuietEntry(root, disk.inodes, inodes, used, At(disk, k));
    }
  }

  lemma PowerLossCrashSafe(root: Root, used: set<string>, disk: Disk, kept: nat, inodes: map<FileId, Inode>)
    requires CrashSafe(root, used, disk) && kept <= |disk.pending|
    requires SurvivesPowerLoss(disk.inodes, inodes)
    ensures CrashSafe(root, used, AfterPowerLoss(disk, kept, inodes))
  {
    var after := AfterPowerLoss(disk, kept, inodes);
    assert GoodEntry(root, disk.inodes, used, At(disk, kept));
    QuietEntry(root, disk.inodes, inodes, used, At(disk, kept));
    assert after.pending[..0] == [];
  }

  lemma LinkGood(root: Root, inodes: map<FileId, Inode>, used: set<string>, entry: Entry, name: Name, file: FileId)
    requires GoodEntry(root, inodes, used, entry) && name !in entry.names
    requires name.LockName? || (name.TempName? && name.incarnation in used && WellNamed(name))
    requires file in inodes && Protected(inodes[file]) && inodes[file].birthMode == PROTECTED
    ensures GoodEntry(root, inodes, used, Apply(entry, Link(name, file)))
  {
  }

  lemma UnlinkTempGood(root: Root, inodes: map<FileId, Inode>, used: set<string>, entry: Entry, name: Name)
    requires GoodEntry(root, inodes, used, entry) && name.TempName?
    ensures GoodEntry(root, inodes, used, Apply(entry, Unlink(name)))
  {
  }

  lemma RenameStableGood(root: Root, inodes: map<FileId, Inode>, used: set<string>, entry: Entry, temp: Name,
      record: StableRecord)
    requires GoodEntry(root, inodes, used, entry) && temp.TempName? && temp in entry.names
    requires ReadStable(inodes, entry.names).Absent?
    requires inodes[entry.names[temp]].synced && inodes[entry.names[temp]].content == Json(StableJson(record))
    requires StableSchema(record) && StableMatchesRoot(record, root)
    ensures GoodEntry(root, inodes, used, Apply(entry, Rename(temp, RecordName(StableFile), [])))
    ensures ReadStable(inodes, Apply(entry, Rename(temp, RecordName(StableFile), [])).names) == Present(record)
  {
    var after := Apply(entry, Rename(temp, RecordName(StableFile), []));
    assert after.installs == entry.installs;
    assert ReadOwner(inodes, after.names) == ReadOwner(inodes, entry.names);
  }

  lemma RenameOwnerGood(root: Root, inodes: map<FileId, Inode>, used: set<string>, entry: Entry, temp: Name,
                        record: OwnerRecord, install: Install)
    requires GoodEntry(root, inodes, used, entry) && temp.TempName? && temp in entry.names
    requires ReadStable(inodes, entry.names).Present? && LockName in entry.names
    requires inodes[entry.names[temp]].synced && inodes[entry.names[temp]].content == Json(OwnerJson(record))
    requires OwnerSchema(record)
    requires RecordsMatch(ReadStable(inodes, entry.names).record, record, root, entry.names[LockName])
    requires GoodInstalls(entry.installs + [install]) && install.incarnation in used
    requires record.incarnationId == install.incarnation && (record.state == Owned <==> install.OwnedBy?)
    ensures GoodEntry(root, inodes, used, Apply(entry, Rename(temp, RecordName(OwnerFile), [install])))
    ensures ReadStable(inodes, Apply(entry, Rename(temp, RecordName(OwnerFile), [install])).names)
            == ReadStable(inodes, entry.names)
  {
    var after := Apply(entry, Rename(temp, RecordName(OwnerFile), [install]));
    assert ReadStable(inodes, after.names) == ReadStable(inodes, entry.names);
    assert ReadOwner(inodes, after.names) == Present(record);
  }

  lemma GoodInventory(root: Root, inodes: map<FileId, Inode>, used: set<string>, entry: Entry)
    requires GoodEntry(root, inodes, used, entry)
    ensures InventoryPasses(inodes, entry.names)
  {
  }
}
