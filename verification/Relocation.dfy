/**
 The coordinator-relocation transaction of the Windows helper
 (native/windows/roost-win-helper.cpp, coordinatorRelocationState).

 Six coordinator files exist in two versions, the prior one and the admitted one. `prepare` copies
 both versions into a building directory and publishes it with one rename; `promote` and `restore`
 then move the coordinator directory between the versions, one atomic file replacement at a time.

 The process can be killed before any file operation. Each action therefore takes a budget: the
 number of file operations it performs before it is killed. A descriptor is identified with its
 canonical SDDL text, so the `.sddl` control file holds the descriptor itself.
 */
module Relocation {

  import opened Basics

  datatype Name = Database | SshKey | AuthorizedKeys | Handoff | Wal | Shm

  /** The destination files, in the order every action visits them. */
  const FILES: seq<Name> := [Database, SshKey, AuthorizedKeys, Handoff, Wal, Shm]

  /** The files that have an admitted version; the other two are database sidecars. */
  predicate HasAdmitted(n: Name) {
    !n.Wal? && !n.Shm?
  }

  type Descriptor = seq<Byte>

  datatype File = File(bytes: seq<Byte>, sd: Descriptor)

  /** The entries of a rollback or building directory. */
  datatype Slot = Prior(n: Name) | Sddl(n: Name) | Absent(n: Name) | Admitted(n: Name) | Prepared

  /** Every slot, in the order tree removal visits it: longest file name first. */
  const SLOTS: seq<Slot> := [
    Admitted(Wal), Admitted(Shm), Admitted(AuthorizedKeys),
    Absent(AuthorizedKeys), Absent(Wal), Absent(Shm),
    Prior(AuthorizedKeys), Prior(Wal), Prior(Shm), Admitted(Handoff),
    Sddl(AuthorizedKeys), Sddl(Wal), Sddl(Shm), Admitted(Database),
    Absent(Handoff),
    Prior(Handoff), Absent(Database), Admitted(SshKey),
    Prior(Database), Sddl(Handoff),
    Sddl(Database), Absent(SshKey),
    Prior(SshKey),
    Sddl(SshKey),
    Prepared
  ]

  type Tree = map<Slot, File>

  /** The entries of the worker's staging directory. */
  datatype StageEntry = Source(n: Name) | PreparedJson | Foreign(name: string)

  datatype Disk = Disk(
    coordinator: map<Name, File>,
    stage: map<StageEntry, File>,
    building: Option<Tree>,
    rollback: Option<Tree>)

  /** The descriptors the helper computes from this machine's service identities. */
  datatype Security = Security(private: Descriptor, rollback: Descriptor, committed: Descriptor)

  /** The longest descriptor text the helper reads back or proves. */
  const TEXT_LIMIT := 64 * 1024

  predicate Provable(sd: Descriptor) {
    0 < |sd| <= TEXT_LIMIT
  }

  predicate ProvableSecurity(sec: Security) {
    Provable(sec.private) && Provable(sec.rollback) && Provable(sec.committed)
  }

  datatype Refusal =
    | NotAnIdentifier | IdentityChanged | MarkerMissing | StageNotExact | StageIncomplete | SourceMissing
    | DescriptorMissing | DescriptorNotAdmitted | DescriptorTooLarge | StateIncomplete

  datatype Status = Running | Killed | Refused(why: Refusal)

  /** An action in progress: `Running` at its end means that it completed. */
  datatype Progress = Progress(disk: Disk, budget: nat, status: Status)

  // ---------------------------------------------------------------------------------------------
  // Single file operations
  // ---------------------------------------------------------------------------------------------

  /** One file operation that turns the disk into `d`, unless the process is killed before it. */
  function Perform(p: Progress, d: Disk): Progress {
    if !p.status.Running? then p
    else if p.budget == 0 then p.(status := Killed)
    else Progress(d, p.budget - 1, Running)
  }

  function Refuse(p: Progress, why: Refusal): Progress {
    if p.status.Running? then p.(status := Refused(why)) else p
  }

  /** Why an atomic staged copy over `existing` would be refused, if it would. */
  function CopyRefusal(existing: Option<File>, sd: Descriptor, alternate: Option<Descriptor>): Option<Refusal> {
    if !Provable(sd) then Some(DescriptorTooLarge)
    else if existing.Some? && existing.value.sd != sd && alternate != Some(existing.value.sd) then
      Some(DescriptorNotAdmitted)
    else None
  }

  function CopyToCoordinator(p: Progress, n: Name, file: File, alternate: Option<Descriptor>): Progress {
    if !p.status.Running? then p else
    match CopyRefusal(Lookup(p.disk.coordinator, n), file.sd, alternate)
    case Some(why) => Refuse(p, why)
    case None => Perform(p, p.disk.(coordinator := p.disk.coordinator[n := file]))
  }

  function DeleteFromCoordinator(p: Progress, n: Name): Progress {
    if p.status.Running? && n in p.disk.coordinator then
      Perform(p, p.disk.(coordinator := p.disk.coordinator - {n}))
    else p
  }

  function BuildingTree(d: Disk): Tree {
    if d.building.Some? then d.building.value else map[]
  }

  function PutInBuilding(p: Progress, slot: Slot, file: File): Progress {
    Perform(p, p.disk.(building := Some(BuildingTree(p.disk)[slot := file])))
  }

  function CopyToBuilding(p: Progress, slot: Slot, file: File): Progress {
    if !p.status.Running? then p else
    match CopyRefusal(Lookup(BuildingTree(p.disk), slot), file.sd, None)
    case Some(why) => Refuse(p, why)
    case None => PutInBuilding(p, slot, file)
  }

  /** A control file is created empty and only then filled: a kill in between leaves it empty. */
  function WriteControl(sec: Security, p: Progress, slot: Slot, text: seq<Byte>): Progress {
    PutInBuilding(PutInBuilding(p, slot, File([], sec.private)), slot, File(text, sec.private))
  }

  // ---------------------------------------------------------------------------------------------
  // The actions
  // ---------------------------------------------------------------------------------------------

  datatype Side = RollbackSide | BuildingSide

  function TreeAt(d: Disk, side: Side): Option<Tree> {
    if side.RollbackSide? then d.rollback else d.building
  }

  function WithTree(d: Disk, side: Side, t: Option<Tree>): Disk {
    if side.RollbackSide? then d.(rollback := t) else d.(building := t)
  }

  /** Removes a directory, if it exists, entry by entry and then the directory itself. */
  function ClearFrom(p: Progress, side: Side, i: nat): Progress
    requires i <= |SLOTS|
    decreases |SLOTS| - i
  {
    if !p.status.Running? || TreeAt(p.disk, side).None? then p
    else if i == |SLOTS| then Perform(p, WithTree(p.disk, side, None))
    else
      var t := TreeAt(p.disk, side).value;
      if SLOTS[i] in t then ClearFrom(Perform(p, WithTree(p.disk, side, Some(t - {SLOTS[i]}))), side, i + 1)
      else ClearFrom(p, side, i + 1)
  }

  /** Saves the prior version of `n`, or its absence. */
  function SavePrior(sec: Security, p: Progress, n: Name): Progress {
    if n in p.disk.coordinator then
      var file := p.disk.coordinator[n];
      WriteControl(sec, CopyToBuilding(p, Prior(n), File(file.bytes, sec.private)), Sddl(n), file.sd)
    else WriteControl(sec, p, Absent(n), [])
  }

  function SaveAdmitted(sec: Security, p: Progress, n: Name): Progress {
    if !HasAdmitted(n) then p
    else if Source(n) !in p.disk.stage then Refuse(p, SourceMissing)
    else CopyToBuilding(p, Admitted(n), File(p.disk.stage[Source(n)].bytes, sec.private))
  }

  function SaveFrom(sec: Security, p: Progress, i: nat): Progress
    requires i <= |FILES|
    decreases |FILES| - i
  {
    if !p.status.Running? || i == |FILES| then p
    else SaveFrom(sec, SaveAdmitted(sec, SavePrior(sec, p, FILES[i]), FILES[i]), i + 1)
  }

  /** Publishes the building directory under its final name with one rename. */
  function Publish(p: Progress): Progress {
    Perform(p, p.disk.(building := None, rollback := p.disk.building))
  }

  predicate HasMarker(d: Disk) {
    d.rollback.Some? && Prepared in d.rollback.value
  }

  predicate MarkerNames(d: Disk, id: seq<Byte>) {
    HasMarker(d) && d.rollback.value[Prepared].bytes == id
  }

  predicate AllowedInStage(e: StageEntry) {
    e.PreparedJson? || (e.Source? && HasAdmitted(e.n))
  }

  predicate StageExact(stage: map<StageEntry, File>) {
    forall e :: e in stage ==> AllowedInStage(e)
  }

  predicate StageComplete(stage: map<StageEntry, File>) {
    && Source(Database) in stage && Source(SshKey) in stage
    && Source(AuthorizedKeys) in stage && Source(Handoff) in stage
  }

  /** Clears what an interrupted prepare left behind and starts an empty building directory. */
  function StartBuilding(p: Progress): Progress {
    var cleared := ClearFrom(ClearFrom(p, RollbackSide, 0), BuildingSide, 0);
    Perform(cleared, cleared.disk.(building := Some(map[])))
  }

  /** Seals the building directory with the marker and publishes it. */
  function Seal(sec: Security, p: Progress, id: seq<Byte>): Progress {
    var published := Publish(WriteControl(sec, p, Prepared, id));
    if published.status.Running? && !MarkerNames(published.disk, id) then Refuse(published, IdentityChanged)
    else published
  }

  function AfterPrepare(sec: Security, p: Progress, id: seq<Byte>): Progress {
    if HasMarker(p.disk) then
      if MarkerNames(p.disk, id) then p else Refuse(p, IdentityChanged)
    else if !StageExact(p.disk.stage) then Refuse(p, StageNotExact)
    else if !StageComplete(p.disk.stage) then Refuse(p, StageIncomplete)
    else Seal(sec, SaveFrom(sec, StartBuilding(p), 0), id)
  }

  function RollbackTree(d: Disk): Tree {
    if d.rollback.Some? then d.rollback.value else map[]
  }

  /** The descriptor a promotion also accepts on the file it replaces. */
  function PriorDescriptor(t: Tree, n: Name): Option<Descriptor> {
    if Sddl(n) in t then Some(t[Sddl(n)].bytes) else None
  }

  function PromoteOne(sec: Security, p: Progress, n: Name): Progress {
    var t := RollbackTree(p.disk);
    if !HasAdmitted(n) then DeleteFromCoordinator(p, n)
    else if Admitted(n) !in t then Refuse(p, SourceMissing)
    else if Sddl(n) in t && |t[Sddl(n)].bytes| > TEXT_LIMIT then Refuse(p, DescriptorTooLarge)
    else CopyToCoordinator(p, n, File(t[Admitted(n)].bytes, sec.rollback), PriorDescriptor(t, n))
  }

  function PromoteFrom(sec: Security, p: Progress, i: nat): Progress
    requires i <= |FILES|
    decreases |FILES| - i
  {
    if !p.status.Running? || i == |FILES| then p
    else PromoteFrom(sec, PromoteOne(sec, p, FILES[i]), i + 1)
  }

  function RestoreOne(sec: Security, p: Progress, n: Name): Progress {
    var t := RollbackTree(p.disk);
    if Prior(n) !in t then DeleteFromCoordinator(p, n)
    else if Sddl(n) !in t then Refuse(p, DescriptorMissing)
    else if |t[Sddl(n)].bytes| > TEXT_LIMIT then Refuse(p, DescriptorTooLarge)
    else CopyToCoordinator(p, n, File(t[Prior(n)].bytes, t[Sddl(n)].bytes), Some(sec.rollback))
  }

  function RestoreFrom(sec: Security, p: Progress, i: nat): Progress
    requires i <= |FILES|
    decreases |FILES| - i
  {
    if !p.status.Running? || i == |FILES| then p
    else RestoreFrom(sec, RestoreOne(sec, p, FILES[i]), i + 1)
  }

  function CommitOne(sec: Security, p: Progress, n: Name): Progress {
    if !HasAdmitted(n) then p
    else if n !in p.disk.coordinator then Refuse(p, StateIncomplete)
    else if p.disk.coordinator[n].sd == sec.committed then p
    else Perform(p, p.disk.(coordinator := p.disk.coordinator[n := p.disk.coordinator[n].(sd := sec.committed)]))
  }

  function CommitFrom(sec: Security, p: Progress, i: nat): Progress
    requires i <= |FILES|
    decreases |FILES| - i
  {
    if !p.status.Running? || i == |FILES| then p
    else CommitFrom(sec, CommitOne(sec, p, FILES[i]), i + 1)
  }

  datatype Action = Prepare | Promote | Restore | Commit

  predicate HexDigit(b: Byte) {
    '0' as int <= b <= '9' as int || 'a' as int <= b <= 'f' as int || 'A' as int <= b <= 'F' as int
  }

  /** The shape of a UUID: 36 characters, dashes after the groups of 8, 4, 4 and 4 hex digits. */
  predicate RelocationIdentifier(id: seq<Byte>) {
    && |id| == 36
    && forall i :: 0 <= i < |id| ==> if i in {8, 13, 18, 23} then id[i] == '-' as int else HexDigit(id[i])
  }

  /** One call of the helper on disk `d`, killed once it has performed `budget` file operations. */
  function Invoke(sec: Security, d: Disk, action: Action, id: seq<Byte>, budget: nat): Progress {
    var p := Progress(d, budget, Running);
    if !RelocationIdentifier(id) then Refuse(p, NotAnIdentifier)
    else if action.Prepare? then AfterPrepare(sec, p, id)
    else if !HasMarker(d) then Refuse(p, MarkerMissing)
    else if !MarkerNames(d, id) then Refuse(p, IdentityChanged)
    else if action.Promote? then PromoteFrom(sec, p, 0)
    else if action.Restore? then RestoreFrom(sec, p, 0)
    else CommitFrom(sec, p, 0)
  }

  /** What happens between two looks at the disk: a call, or the worker refilling its stage. */
  datatype Event = Call(action: Action, id: seq<Byte>, budget: nat) | Restage(stage: map<StageEntry, File>)

  function Step(sec: Security, d: Disk, e: Event): Disk {
    match e
    case Call(action, id, budget) => Invoke(sec, d, action, id, budget).disk
    case Restage(stage) => d.(stage := stage)
  }

  function Run(sec: Security, d: Disk, events: seq<Event>): Disk {
    if events == [] then d else Step(sec, Run(sec, d, events[..|events| - 1]), events[|events| - 1])
  }

}
