/**
 The relocation actions as the helper performs them: directories updated in place, one file operation
 after another, each action refining its specification in `Relocation`.
 */
module RelocationHelper {

  import opened Basics
  import opened Relocation

  class Helper {
    const sec: Security
    var coordinator: map<Name, File>
    var stage: map<StageEntry, File>
    var building: Option<Tree>
    var rollback: Option<Tree>
    var budget: nat
    var status: Status

    ghost function Now(): Progress
      reads this
    {
      Progress(Disk(coordinator, stage, building, rollback), budget, status)
    }

    constructor (sec: Security, disk: Disk)
      ensures Now() == Progress(disk, 0, Running) && this.sec == sec
    {
      this.sec := sec;
      coordinator, stage, building, rollback := disk.coordinator, disk.stage, disk.building, disk.rollback;
      budget, status := 0, Running;
    }

    /** Whether the process is still alive for one more file operation. */
    method Spend() returns (alive: bool)
      modifies this`budget, this`status
      ensures alive <==> old(status).Running? && old(budget) > 0
      ensures Now() == if alive then old(Now()).(budget := old(budget) - 1) else Perform(old(Now()), old(Now()).disk)
    {
      alive := status.Running? && budget > 0;
      if alive {
        budget := budget - 1;
      } else if status.Running? {
        status := Killed;
      }
    }

    method Fail(why: Refusal)
      modifies this`status
      ensures Now() == Refuse(old(Now()), why)
    {
      if status.Running? { status := Refused(why); }
    }

    method CopyIntoCoordinator(n: Name, file: File, alternate: Option<Descriptor>)
      modifies this`coordinator, this`budget, this`status
      ensures Now() == CopyToCoordinator(old(Now()), n, file, alternate)
    {
      var refusal := CopyRefusal(Lookup(coordinator, n), file.sd, alternate);
      if refusal.Some? {
        Fail(refusal.value);
      } else {
        var alive := Spend();
        if alive { coordinator := coordinator[n := file]; }
      }
    }

    method DeleteCoordinatorFile(n: Name)
      modifies this`coordinator, this`budget, this`status
      ensures Now() == DeleteFromCoordinator(old(Now()), n)
    {
      if n in coordinator {
        var alive := Spend();
        if alive { coordinator := coordinator - {n}; }
      }
    }

    method PutSlot(slot: Slot, file: File)
      modifies this`building, this`budget, this`status
      ensures Now() == PutInBuilding(old(Now()), slot, file)
    {
      var alive := Spend();
      if alive {
        building := Some((if building.Some? then building.value else map[])[slot := file]);
      }
    }

    method CopyIntoBuilding(slot: Slot, file: File)
      modifies this`building, this`budget, this`status
      ensures Now() == CopyToBuilding(old(Now()), slot, file)
    {
      var tree := if building.Some? then building.value else map[];
      var refusal := CopyRefusal(Lookup(tree, slot), file.sd, None);
      if refusal.Some? {
        Fail(refusal.value);
      } else {
        PutSlot(slot, file);
      }
    }

    method WriteControlFile(slot: Slot, text: seq<Byte>)
      modifies this`building, this`budget, this`status
      ensures Now() == WriteControl(sec, old(Now()), slot, text)
    {
      PutSlot(slot, File([], sec.private));
      PutSlot(slot, File(text, sec.private));
    }

    method ClearRollback()
      modifies this`rollback, this`budget, this`status
      ensures Now() == ClearFrom(old(Now()), RollbackSide, 0)
    {
      var i := 0;
      while i < |SLOTS| && rollback.Some? && status.Running?
        invariant i <= |SLOTS|
        invariant ClearFrom(Now(), RollbackSide, i) == ClearFrom(old(Now()), RollbackSide, 0)
      {
        if SLOTS[i] in rollback.value {
          var alive := Spend();
          if alive { rollback := Some(rollback.value - {SLOTS[i]}); }
        }
        i := i + 1;
      }
      if rollback.Some? {
        var alive := Spend();
        if alive { rollback := None; }
      }
    }

    method ClearBuilding()
      modifies this`building, this`budget, this`status
      ensures Now() == ClearFrom(old(Now()), BuildingSide, 0)
    {
      var i := 0;
      while i < |SLOTS| && building.Some? && status.Running?
        invariant i <= |SLOTS|
        invariant ClearFrom(Now(), BuildingSide, i) == ClearFrom(old(Now()), BuildingSide, 0)
      {
        if SLOTS[i] in building.value {
          var alive := Spend();
          if alive { building := Some(building.value - {SLOTS[i]}); }
        }
        i := i + 1;
      }
      if building.Some? {
        var alive := Spend();
        if alive { building := None; }
      }
    }

    method SaveFile(n: Name)
      modifies this`building, this`budget, this`status
      ensures Now() == SaveAdmitted(sec, SavePrior(sec, old(Now()), n), n)
    {
      if n in coordinator {
        CopyIntoBuilding(Prior(n), File(coordinator[n].bytes, sec.private));
        WriteControlFile(Sddl(n), coordinator[n].sd);
      } else {
        WriteControlFile(Absent(n), []);
      }
      if HasAdmitted(n) {
        if Source(n) in stage {
          CopyIntoBuilding(Admitted(n), File(stage[Source(n)].bytes, sec.private));
        } else {
          Fail(SourceMissing);
        }
      }
    }

    method SaveFiles()
      modifies this`building, this`budget, this`status
      ensures Now() == SaveFrom(sec, old(Now()), 0)
    {
      var i := 0;
      while i < |FILES| && status.Running?
        invariant i <= |FILES|
        invariant SaveFrom(sec, Now(), i) == SaveFrom(sec, old(Now()), 0)
      {
        SaveFile(FILES[i]);
        i := i + 1;
      }
    }

    method StartBuildingDirectory()
      modifies this`rollback, this`building, this`budget, this`status
      ensures Now() == StartBuilding(old(Now()))
    {
      ClearRollback();
      ClearBuilding();
      var alive := Spend();
      if alive { building := Some(map[]); }
    }

    method SealBuilding(id: seq<Byte>)
      modifies this`rollback, this`building, this`budget, this`status
      ensures Now() == Seal(sec, old(Now()), id)
    {
      WriteControlFile(Prepared, id);
      var alive := Spend();
      if alive {
        building, rollback := None, building;
        // The marker read back here is the one just written, so this check never refuses.
        assert rollback.Some? && Prepared in rollback.value && rollback.value[Prepared].bytes == id;
      }
    }

    method PrepareAction(id: seq<Byte>)
      modifies this`rollback, this`building, this`budget, this`status
      ensures Now() == AfterPrepare(sec, old(Now()), id)
    {
      if rollback.Some? && Prepared in rollback.value {
        if rollback.value[Prepared].bytes != id { Fail(IdentityChanged); }
      } else if exists e :: e in stage && !AllowedInStage(e) {
        Fail(StageNotExact);
      } else if !StageComplete(stage) {
        Fail(StageIncomplete);
      } else {
        StartBuildingDirectory();
        SaveFiles();
        SealBuilding(id);
      }
    }

    method PromoteFile(n: Name)
      modifies this`coordinator, this`budget, this`status
      ensures Now() == PromoteOne(sec, old(Now()), n)
    {
      var tree := if rollback.Some? then rollback.value else map[];
      if !HasAdmitted(n) {
        DeleteCoordinatorFile(n);
      } else if Admitted(n) !in tree {
        Fail(SourceMissing);
      } else if Sddl(n) in tree && |tree[Sddl(n)].bytes| > TEXT_LIMIT {
        Fail(DescriptorTooLarge);
      } else {
        var prior := if Sddl(n) in tree then Some(tree[Sddl(n)].bytes) else None;
        CopyIntoCoordinator(n, File(tree[Admitted(n)].bytes, sec.rollback), prior);
      }
    }

    method PromoteAction()
      modifies this`coordinator, this`budget, this`status
      ensures Now() == PromoteFrom(sec, old(Now()), 0)
    {
      var i := 0;
      while i < |FILES| && status.Running?
        invariant i <= |FILES|
        invariant PromoteFrom(sec, Now(), i) == PromoteFrom(sec, old(Now()), 0)
      {
        PromoteFile(FILES[i]);
        i := i + 1;
      }
    }

    method RestoreFile(n: Name)
      modifies this`coordinator, this`budget, this`status
      ensures Now() == RestoreOne(sec, old(Now()), n)
    {
      var tree := if rollback.Some? then rollback.value else map[];
      if Prior(n) !in tree {
        DeleteCoordinatorFile(n);
      } else if Sddl(n) !in tree {
        Fail(DescriptorMissing);
      } else if |tree[Sddl(n)].bytes| > TEXT_LIMIT {
        Fail(DescriptorTooLarge);
      } else {
        CopyIntoCoordinator(n, File(tree[Prior(n)].bytes, tree[Sddl(n)].bytes), Some(sec.rollback));
      }
    }

    method RestoreAction()
      modifies this`coordinator, this`budget, this`status
      ensures Now() == RestoreFrom(sec, old(Now()), 0)
    {
      var i := 0;
      while i < |FILES| && status.Running?
        invariant i <= |FILES|
        invariant RestoreFrom(sec, Now(), i) == RestoreFrom(sec, old(Now()), 0)
      {
        RestoreFile(FILES[i]);
        i := i + 1;
      }
    }

    method CommitAction()
      modifies this`coordinator, this`budget, this`status
      ensures Now() == CommitFrom(sec, old(Now()), 0)
    {
      var i := 0;
      while i < |FILES| && status.Running?
        invariant i <= |FILES|
        invariant CommitFrom(sec, Now(), i) == CommitFrom(sec, old(Now()), 0)
      {
        CommitFile(FILES[i]);
        i := i + 1;
      }
    }

    method CommitFile(n: Name)
      requires status.Running?
      modifies this`coordinator, this`budget, this`status
      ensures Now() == CommitOne(sec, old(Now()), n)
    {
      if !HasAdmitted(n) { return; }
      if n !in coordinator {
        Fail(StateIncomplete);
      } else if coordinator[n].sd != sec.committed {
        var alive := Spend();
        if alive { coordinator := coordinator[n := coordinator[n].(sd := sec.committed)]; }
      }
    }

    /** One call of the helper, killed once it has performed `limit` file operations. */
    method Execute(action: Action, id: seq<Byte>, limit: nat)
      modifies this
      ensures Now() == Invoke(sec, old(Now()).disk, action, id, limit)
    {
      budget, status := limit, Running;
      if !RelocationIdentifier(id) {
        Fail(NotAnIdentifier);
      } else if action.Prepare? {
        PrepareAction(id);
      } else if rollback.None? || Prepared !in rollback.value {
        Fail(MarkerMissing);
      } else if rollback.value[Prepared].bytes != id {
        Fail(IdentityChanged);
      } else if action.Promote? {
        PromoteAction();
      } else if action.Restore? {
        RestoreAction();
      } else {
        CommitAction();
      }
    }
  }

}
