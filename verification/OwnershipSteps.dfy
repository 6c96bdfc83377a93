// Facts about single calls on the disk: what each keeps and what it changes.
module OwnershipSteps {
  import opened Prelude
  import opened ControlPlaneNames
  import opened ControlPlaneDisk
  import opened OwnershipProtocol
  import opened OwnershipSafety

  /* ---------------------- disk calls, one at a time --------------------- */

  ghost predicate Carries(before: Disk, after: Disk) {
    forall marker :: Supported(before, marker) ==> Supported(after, marker)
  }

  function StableOn(disk: Disk): Reading<StableRecord> {
    ReadStable(disk.inodes, Live(disk).names)
  }

  lemma CarryAppend(disk: Disk, op: DirectoryOp)
    requires forall marker ::
      Supports(disk.inodes, Live(disk), marker) ==> Supports(disk.inodes, Apply(Live(disk), op), marker)
    ensures Carries(disk, Append(disk, op))
  {
    forall marker | Supported(disk, marker)
      ensures Supported(Append(disk, op), marker)
    {
      SupportAppend(disk, op, marker);
    }
  }

  lemma QuietFacts(root: Root, used: set<string>, disk: Disk, inodes: map<FileId, Inode>)
    requires CrashSafe(root, used, disk) && QuietInodeChange(disk.inodes, inodes)
    ensures CrashSafe(root, used, disk.(inodes := inodes))
    ensures Live(disk.(inodes := inodes)) == Live(disk)
    ensures StableOn(disk.(inodes := inodes)) == StableOn(disk)
    ensures Carries(disk, disk.(inodes := inodes))
  {
    QuietCrashSafe(root, used, disk, inodes);
    assert GoodEntry(root, disk.inodes, used, Live(disk));
    QuietEntry(root, disk.inodes, inodes, used, Live(disk));
    forall marker | Supported(disk, marker)
      ensures Supported(disk.(inodes := inodes), marker)
    {
      SupportQuiet(root, used, disk, inodes, marker);
    }
  }

  lemma LinkFacts(root: Root, used: set<string>, disk: Disk, name: Name, file: FileId)
    requires CrashSafe(root, used, disk) && name !in Live(disk).names
    requires name.LockName? || (name.TempName? && name.incarnation in used && WellNamed(name))
    requires file in disk.inodes && Protected(disk.inodes[file]) && disk.inodes[file].birthMode == PROTECTED
    ensures CrashSafe(root, used, Append(disk, Link(name, file)))
    ensures Live(Append(disk, Link(name, file))) == Live(disk).(names := Live(disk).names[name := file])
    ensures StableOn(Append(disk, Link(name, file))) == StableOn(disk)
    ensures Carries(disk, Append(disk, Link(name, file)))
  {
    assert GoodEntry(root, disk.inodes, used, Live(disk));
    LinkGood(root, disk.inodes, used, Live(disk), name, file);
    AppendCrashSafe(root, used, disk, Link(name, file));
    AtAppend(disk, Link(name, file));
    assert ReadStable(disk.inodes, Apply(Live(disk), Link(name, file)).names)
        == ReadStable(disk.inodes, Live(disk).names);
    CarryAppend(disk, Link(name, file));
  }

  lemma CreateFacts(root: Root, used: set<string>, disk: Disk, name: Name, file: FileId, umask: Mode)
    requires CrashSafe(root, used, disk) && KeepsOwnerAccess(umask)
    requires name !in Live(disk).names && file !in disk.inodes
    requires name.LockName? || (name.TempName? && name.incarnation in used && WellNamed(name))
    ensures CrashSafe(root, used, CreateFile(disk, name, file, umask))
    ensures Live(CreateFile(disk, name, file, umask)) == Live(disk).(names := Live(disk).names[name := file])
    ensures StableOn(CreateFile(disk, name, file, umask)) == StableOn(disk)
    ensures Carries(disk, CreateFile(disk, name, file, umask))
  {
    assert CreationMode(umask) == PROTECTED;
    var inodes := disk.inodes[file := Inode(true, true, PROTECTED, PROTECTED, Torn, false)];
    QuietFacts(root, used, disk, inodes);
    LinkFacts(root, used, disk.(inodes := inodes), name, file);
  }

  lemma ProtectFacts(root: Root, used: set<string>, disk: Disk, name: Name)
    requires CrashSafe(root, used, disk) && name in Live(disk).names
    ensures ProtectFile(disk, Live(disk).names[name]) == disk
  {
    assert GoodEntry(root, disk.inodes, used, Live(disk));
    var file := Live(disk).names[name];
    assert disk.inodes[file].(mode := PROTECTED) == disk.inodes[file];
    assert disk.inodes[file := disk.inodes[file]] == disk.inodes;
  }

  lemma WriteFacts(root: Root, used: set<string>, disk: Disk, file: FileId, value: JsonValue)
    requires CrashSafe(root, used, disk) && file in disk.inodes && !disk.inodes[file].synced
    ensures CrashSafe(root, used, WriteAndSync(disk, file, value))
    ensures Live(WriteAndSync(disk, file, value)) == Live(disk)
    ensures StableOn(WriteAndSync(disk, file, value)) == StableOn(disk)
    ensures Carries(disk, WriteAndSync(disk, file, value))
  {
    QuietFacts(root, used, disk, WriteAndSync(disk, file, value).inodes);
  }

  lemma UnlinkFacts(root: Root, used: set<string>, disk: Disk, name: Name)
    requires CrashSafe(root, used, disk) && name.TempName?
    ensures CrashSafe(root, used, Append(disk, Unlink(name)))
    ensures Live(Append(disk, Unlink(name))) == Live(disk).(names := Live(disk).names - {name})
    ensures StableOn(Append(disk, Unlink(name))) == StableOn(disk)
    ensures Carries(disk, Append(disk, Unlink(name)))
  {
    assert GoodEntry(root, disk.inodes, used, Live(disk));
    UnlinkTempGood(root, disk.inodes, used, Live(disk), name);
    AppendCrashSafe(root, used, disk, Unlink(name));
    AtAppend(disk, Unlink(name));
    assert ReadStable(disk.inodes, Apply(Live(disk), Unlink(name)).names) == ReadStable(disk.inodes, Live(disk).names);
    CarryAppend(disk, Unlink(name));
  }

  lemma RenameStableFacts(root: Root, used: set<string>, disk: Disk, temp: Name, record: StableRecord)
    requires CrashSafe(root, used, disk) && temp.TempName? && temp in Live(disk).names
    requires StableOn(disk).Absent?
    requires Live(disk).names[temp] in disk.inodes && disk.inodes[Live(disk).names[temp]].synced
    requires disk.inodes[Live(disk).names[temp]].content == Json(StableJson(record))
    requires StableSchema(record) && StableMatchesRoot(record, root)
    ensures CrashSafe(root, used, Append(disk, Rename(temp, RecordName(StableFile), [])))
    ensures Live(Append(disk, Rename(temp, RecordName(StableFile), [])))
        == Apply(Live(disk), Rename(temp, RecordName(StableFile), []))
    ensures StableOn(Append(disk, Rename(temp, RecordName(StableFile), []))) == Present(record)
    ensures Carries(disk, Append(disk, Rename(temp, RecordName(StableFile), [])))
  {
    var op := Rename(temp, RecordName(StableFile), []);
    assert GoodEntry(root, disk.inodes, used, Live(disk));
    RenameStableGood(root, disk.inodes, used, Live(disk), temp, record);
    AppendCrashSafe(root, used, disk, op);
    AtAppend(disk, op);
    CarryAppend(disk, op);
  }

  lemma RenameOwnerFacts(root: Root, used: set<string>, disk: Disk, temp: Name, record: OwnerRecord, install: Install)
    requires CrashSafe(root, used, disk) && temp.TempName? && temp in Live(disk).names
    requires StableOn(disk).Present? && LockName in Live(disk).names
    requires Live(disk).names[temp] in disk.inodes && disk.inodes[Live(disk).names[temp]].synced
    requires disk.inodes[Live(disk).names[temp]].content == Json(OwnerJson(record))
    requires OwnerSchema(record)
    requires RecordsMatch(StableOn(disk).record, record, root, Live(disk).names[LockName])
    requires GoodInstalls(Live(disk).installs + [install]) && install.incarnation in used
    requires record.incarnationId == install.incarnation && (record.state == Owned <==> install.OwnedBy?)
    ensures CrashSafe(root, used, Append(disk, Rename(temp, RecordName(OwnerFile), [install])))
    ensures Live(Append(disk, Rename(temp, RecordName(OwnerFile), [install])))
            == Apply(Live(disk), Rename(temp, RecordName(OwnerFile), [install]))
    ensures StableOn(Append(disk, Rename(temp, RecordName(OwnerFile), [install]))) == StableOn(disk)
    ensures Carries(disk, Append(disk, Rename(temp, RecordName(OwnerFile), [install])))
  {
    var op := Rename(temp, RecordName(OwnerFile), [install]);
    var before, after := Live(disk), Apply(Live(disk), op);
    assert GoodEntry(root, disk.inodes, used, before);
    RenameOwnerGood(root, disk.inodes, used, before, temp, record, install);
    AppendCrashSafe(root, used, disk, op);
    AtAppend(disk, op);
    assert forall i: nat | i < |before.installs| :: after.installs[i] == before.installs[i];
    CarryAppend(disk, op);
  }

  lemma SyncFacts(root: Root, used: set<string>, disk: Disk)
    requires CrashSafe(root, used, disk)
    ensures CrashSafe(root, used, SyncDirectory(disk))
    ensures Live(SyncDirectory(disk)) == Live(disk)
    ensures Carries(disk, SyncDirectory(disk))
    ensures forall marker :: Supports(disk.inodes, Live(disk), marker) ==> Supported(SyncDirectory(disk), marker)
  {
    SyncCrashSafe(root, used, disk);
    assert SyncDirectory(disk).pending[..0] == [];
    forall marker | Supports(disk.inodes, Live(disk), marker)
      ensures Supported(SyncDirectory(disk), marker)
    {
      SupportSync(disk, marker);
    }
    forall marker | Supported(disk, marker)
      ensures Supported(SyncDirectory(disk), marker)
    {
      assert Supports(disk.inodes, At(disk, |disk.pending|), marker);
    }
  }
}
