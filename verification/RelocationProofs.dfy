/**
 What the relocation transaction keeps over every run: a published marker means a complete rollback
 set, every coordinator file is always one whole version, and a completed restore undoes any
 interleaving of interrupted promotions and restores.
 */
module RelocationProofs {

  import opened Basics
  import opened Relocation

  /** What `prepare` read: the coordinator files of that moment and the admitted sources. */
  datatype Snapshot = Snapshot(prior: map<Name, File>, admitted: map<Name, seq<Byte>>)

  /** `t` holds the prior version of `n`, or records that it was absent. */
  ghost predicate SavedPrior(t: Tree, snap: Snapshot, n: Name) {
    if n in snap.prior then
      && Prior(n) in t && t[Prior(n)].bytes == snap.prior[n].bytes
      && Sddl(n) in t && t[Sddl(n)].bytes == snap.prior[n].sd
      && Absent(n) !in t
    else
      Absent(n) in t && Prior(n) !in t && Sddl(n) !in t
  }

  /** ... and its admitted source, if it has one. */
  ghost predicate Saved(t: Tree, snap: Snapshot, n: Name) {
    && SavedPrior(t, snap, n)
    && (HasAdmitted(n) ==> n in snap.admitted && Admitted(n) in t && t[Admitted(n)].bytes == snap.admitted[n])
  }

  /** A complete rollback set. */
  ghost predicate Complete(t: Tree, snap: Snapshot) {
    forall n :: Saved(t, snap, n)
  }

  ghost predicate Published(d: Disk, snap: Snapshot) {
    HasMarker(d) && Complete(d.rollback.value, snap)
  }

  /** `n` is exactly as `prepare` read it: same bytes, same descriptor, or still absent. */
  ghost predicate IsPrior(files: map<Name, File>, snap: Snapshot, n: Name) {
    Lookup(files, n) == Lookup(snap.prior, n)
  }

  ghost predicate IsAdmitted(sec: Security, files: map<Name, File>, snap: Snapshot, n: Name) {
    n in snap.admitted && Lookup(files, n) == Some(File(snap.admitted[n], sec.rollback))
  }

  ghost predicate IsPromoted(sec: Security, files: map<Name, File>, snap: Snapshot, n: Name) {
    if HasAdmitted(n) then IsAdmitted(sec, files, snap, n) else n !in files
  }

  /** Each promoted file is wholly one version; a sidecar is the prior one or gone. */
  ghost predicate WholeVersions(sec: Security, files: map<Name, File>, snap: Snapshot) {
    forall n :: IsPrior(files, snap, n) || IsPromoted(sec, files, snap, n)
  }

  ghost predicate ProvablePrior(snap: Snapshot, n: Name) {
    n in snap.prior ==> Provable(snap.prior[n].sd)
  }

  ghost predicate ProvablePriors(snap: Snapshot) {
    forall n :: ProvablePrior(snap, n)
  }

  ghost predicate Ready(sec: Security, d: Disk, snap: Snapshot) {
    Published(d, snap) && WholeVersions(sec, d.coordinator, snap)
  }

  /** `q` differs from `p` in the coordinator's file `n` at most. */
  ghost predicate ChangesOnly(p: Disk, q: Disk, n: Name) {
    && q == p.(coordinator := q.coordinator)
    && forall m :: m != n ==> Lookup(q.coordinator, m) == Lookup(p.coordinator, m)
  }

  /** The position of a file in every action's visiting order. */
  function Rank(n: Name): (r: nat)
    ensures r < |FILES| && FILES[r] == n
  {
    match n
    case Database => 0
    case SshKey => 1
    case AuthorizedKeys => 2
    case Handoff => 3
    case Wal => 4
    case Shm => 5
  }

  lemma RankOfFile(i: nat)
    requires i < |FILES|
    ensures forall n :: Rank(n) == i <==> n == FILES[i]
  {
    assert i == 0 || i == 1 || i == 2 || i == 3 || i == 4 || i == 5;
  }

  /** Replacing one file by one of its two versions keeps every file whole. */
  lemma OneFileStaysWhole(sec: Security, p: Disk, q: Disk, snap: Snapshot, n: Name)
    requires Ready(sec, p, snap) && ChangesOnly(p, q, n)
    requires IsPrior(q.coordinator, snap, n) || IsPromoted(sec, q.coordinator, snap, n)
    ensures Ready(sec, q, snap)
  {
    forall m ensures IsPrior(q.coordinator, snap, m) || IsPromoted(sec, q.coordinator, snap, m) {
      assert IsPrior(p.coordinator, snap, m) || IsPromoted(sec, p.coordinator, snap, m);
    }
  }

  // ---------------------------------------------------------------------------------------------
  // Promote and restore
  // ---------------------------------------------------------------------------------------------

  /** What one file's step of an action leaves: whole files, this one changed at most, one operation spent. */
  ghost predicate OneFileStep(sec: Security, p: Progress, q: Progress, snap: Snapshot, n: Name) {
    && Ready(sec, q.disk, snap) && ChangesOnly(p.disk, q.disk, n)
    && (q.status.Killed? ==> p.budget == 0) && q.budget >= p.budget - 1
  }

  lemma DeletingKeeps(sec: Security, p: Progress, snap: Snapshot, n: Name)
    requires Ready(sec, p.disk, snap) && p.status.Running?
    requires n !in snap.prior || !HasAdmitted(n)
    ensures var q := DeleteFromCoordinator(p, n);
      && OneFileStep(sec, p, q, snap, n) && !q.status.Refused?
      && (q.status.Running? ==> n !in q.disk.coordinator)
  {
    var q := DeleteFromCoordinator(p, n);
    assert IsPrior(p.disk.coordinator, snap, n) || IsPromoted(sec, p.disk.coordinator, snap, n);
    OneFileStaysWhole(sec, p.disk, q.disk, snap, n);
  }

  /** Copying one of the two versions over a file that is one of the two versions. */
  lemma CopyingKeeps(sec: Security, p: Progress, snap: Snapshot, n: Name, file: File, alternate: Option<Descriptor>)
    requires Ready(sec, p.disk, snap) && p.status.Running? && Provable(file.sd)
    requires Lookup(snap.prior, n) == Some(file) ||
      (n in snap.admitted && HasAdmitted(n) && file == File(snap.admitted[n], sec.rollback))
    requires n in p.disk.coordinator ==>
      p.disk.coordinator[n].sd == file.sd || alternate == Some(p.disk.coordinator[n].sd)
    ensures var q := CopyToCoordinator(p, n, file, alternate);
      && OneFileStep(sec, p, q, snap, n) && !q.status.Refused?
      && (q.status.Running? ==> Lookup(q.disk.coordinator, n) == Some(file))
  {
    var q := CopyToCoordinator(p, n, file, alternate);
    assert CopyRefusal(Lookup(p.disk.coordinator, n), file.sd, alternate) == None;
    assert IsPrior(p.disk.coordinator, snap, n) || IsPromoted(sec, p.disk.coordinator, snap, n);
    OneFileStaysWhole(sec, p.disk, q.disk, snap, n);
  }

  lemma PromoteOneKeeps(sec: Security, p: Progress, snap: Snapshot, n: Name)
    requires Ready(sec, p.disk, snap) && p.status.Running? && ProvableSecurity(sec)
    ensures var q := PromoteOne(sec, p, n);
      && OneFileStep(sec, p, q, snap, n)
      && (q.status.Refused? ==> !ProvablePrior(snap, n))
      && (q.status.Running? ==> IsPromoted(sec, q.disk.coordinator, snap, n))
  {
    var t := p.disk.rollback.value;
    assert Saved(t, snap, n);
    assert IsPrior(p.disk.coordinator, snap, n) || IsPromoted(sec, p.disk.coordinator, snap, n);
    if !HasAdmitted(n) {
      DeletingKeeps(sec, p, snap, n);
    } else if !(Sddl(n) in t && |t[Sddl(n)].bytes| > TEXT_LIMIT) {
      CopyingKeeps(sec, p, snap, n, File(t[Admitted(n)].bytes, sec.rollback), PriorDescriptor(t, n));
    }
  }

  lemma RestoreOneKeeps(sec: Security, p: Progress, snap: Snapshot, n: Name)
    requires Ready(sec, p.disk, snap) && p.status.Running? && ProvableSecurity(sec)
    ensures var q := RestoreOne(sec, p, n);
      && OneFileStep(sec, p, q, snap, n)
      && (q.status.Refused? <==> !ProvablePrior(snap, n))
      && (q.status.Running? ==> IsPrior(q.disk.coordinator, snap, n))
  {
    var t := p.disk.rollback.value;
    assert Saved(t, snap, n);
    assert IsPrior(p.disk.coordinator, snap, n) || IsPromoted(sec, p.disk.coordinator, snap, n);
    if n !in snap.prior {
      DeletingKeeps(sec, p, snap, n);
    } else if ProvablePrior(snap, n) {
      CopyingKeeps(sec, p, snap, n, File(t[Prior(n)].bytes, t[Sddl(n)].bytes), Some(sec.rollback));
    }
  }

  lemma {:induction false} PromoteFromKeeps(sec: Security, p: Progress, snap: Snapshot, i: nat)
    requires i <= |FILES| && Ready(sec, p.disk, snap) && p.status.Running? && ProvableSecurity(sec)
    requires forall n :: Rank(n) < i ==> IsPromoted(sec, p.disk.coordinator, snap, n)
    ensures var q := PromoteFrom(sec, p, i);
      && Ready(sec, q.disk, snap) && q.disk == p.disk.(coordinator := q.disk.coordinator)
      && (ProvablePriors(snap) ==> !q.status.Refused?)
      && (q.status.Killed? ==> p.budget < |FILES| - i)
      && (q.status.Running? ==> forall n :: IsPromoted(sec, q.disk.coordinator, snap, n))
    decreases |FILES| - i
  {
    if i < |FILES| {
      RankOfFile(i);
      PromoteOneKeeps(sec, p, snap, FILES[i]);
      var next := PromoteOne(sec, p, FILES[i]);
      if next.status.Running? {
        PromoteFromKeeps(sec, next, snap, i + 1);
      }
    }
  }

  lemma {:induction false} RestoreFromKeeps(sec: Security, p: Progress, snap: Snapshot, i: nat)
    requires i <= |FILES| && Ready(sec, p.disk, snap) && p.status.Running? && ProvableSecurity(sec)
    requires forall n :: Rank(n) < i ==> IsPrior(p.disk.coordinator, snap, n) && ProvablePrior(snap, n)
    ensures var q := RestoreFrom(sec, p, i);
      && Ready(sec, q.disk, snap) && q.disk == p.disk.(coordinator := q.disk.coordinator)
      && (q.status.Refused? ==> !ProvablePriors(snap))
      && (q.status.Killed? ==> p.budget < |FILES| - i)
      && (q.status.Running? ==> forall n :: IsPrior(q.disk.coordinator, snap, n) && ProvablePrior(snap, n))
    decreases |FILES| - i
  {
    if i < |FILES| {
      RankOfFile(i);
      RestoreOneKeeps(sec, p, snap, FILES[i]);
      var next := RestoreOne(sec, p, FILES[i]);
      if next.status.Running? {
        RestoreFromKeeps(sec, next, snap, i + 1);
      }
    }
  }

  /**
   A completed promotion, from any state that earlier interrupted calls left, ends with all four
   promoted files admitted and both sidecars gone.
   */
  lemma CompletedPromotionIsTotal(sec: Security, p: Progress, snap: Snapshot)
    requires Ready(sec, p.disk, snap) && p.status.Running? && ProvableSecurity(sec)
    requires PromoteFrom(sec, p, 0).status.Running?
    ensures forall n :: IsPromoted(sec, PromoteFrom(sec, p, 0).disk.coordinator, snap, n)
  {
    PromoteFromKeeps(sec, p, snap, 0);
  }

  lemma SameFiles(files: map<Name, File>, snap: Snapshot)
    requires forall n :: IsPrior(files, snap, n)
    ensures files == snap.prior
  {
    forall n ensures Lookup(files, n) == Lookup(snap.prior, n) { assert IsPrior(files, snap, n); }
    SameLookups(files, snap.prior);
  }

  /** A completed restore returns the coordinator to exactly what `prepare` read. */
  lemma CompletedRestoreIsExact(sec: Security, p: Progress, snap: Snapshot)
    requires Ready(sec, p.disk, snap) && p.status.Running? && ProvableSecurity(sec)
    requires RestoreFrom(sec, p, 0).status.Running?
    ensures RestoreFrom(sec, p, 0).disk == p.disk.(coordinator := snap.prior)
    ensures ProvablePriors(snap)
  {
    RestoreFromKeeps(sec, p, snap, 0);
    var files := RestoreFrom(sec, p, 0).disk.coordinator;
    assert forall n :: IsPrior(files, snap, n);
    assert files == snap.prior by { SameFiles(files, snap); }
  }

  /**
   A restore that is not killed completes exactly when every descriptor that `prepare` read can be
   read back: at most 64 KiB of SDDL text.
   */
  lemma RestoreCompletesIff(sec: Security, p: Progress, snap: Snapshot)
    requires Ready(sec, p.disk, snap) && p.status.Running? && ProvableSecurity(sec)
    requires p.budget >= |FILES|
    ensures RestoreFrom(sec, p, 0).status.Running? <==> ProvablePriors(snap)
  {
    RestoreFromKeeps(sec, p, snap, 0);
    if RestoreFrom(sec, p, 0).status.Running? {
      CompletedRestoreIsExact(sec, p, snap);
    }
  }

  // ---------------------------------------------------------------------------------------------
  // Prepare
  // ---------------------------------------------------------------------------------------------

  /** What `prepare` would read now. */
  function SnapshotOf(d: Disk): Snapshot {
    Snapshot(d.coordinator, map n | n in FILES && HasAdmitted(n) && Source(n) in d.stage :: d.stage[Source(n)].bytes)
  }

  const CLEAR_COST := |SLOTS| + 1

  lemma {:induction false} ClearFromKeeps(p: Progress, side: Side, i: nat)
    requires i <= |SLOTS|
    ensures var q := ClearFrom(p, side, i);
      && q.disk == WithTree(p.disk, side, TreeAt(q.disk, side))
      && (TreeAt(q.disk, side).Some? ==>
            TreeAt(p.disk, side).Some? && TreeAt(q.disk, side).value.Keys <= TreeAt(p.disk, side).value.Keys)
      && (q.status.Running? ==> TreeAt(q.disk, side).None?)
      && (p.status.Running? && p.budget >= CLEAR_COST - i ==>
        q.status.Running? && q.budget >= p.budget - (CLEAR_COST - i))
      && (p.status.Running? ==> !q.status.Refused?)
      && (p.status.Running? || q == p)
    decreases |SLOTS| - i
  {
    if p.status.Running? && TreeAt(p.disk, side).Some? && i < |SLOTS| {
      var t := TreeAt(p.disk, side).value;
      if SLOTS[i] in t {
        ClearFromKeeps(Perform(p, WithTree(p.disk, side, Some(t - {SLOTS[i]}))), side, i + 1);
      } else {
        ClearFromKeeps(p, side, i + 1);
      }
    }
  }

  ghost predicate OwnsSlot(slot: Slot, n: Name) {
    !slot.Prepared? && slot.n == n
  }

  /** `after` differs from `before` in the slots of `n` at most. */
  ghost predicate KeepsOtherSlots(before: Tree, after: Tree, n: Name) {
    forall slot :: !OwnsSlot(slot, n) ==> Lookup(after, slot) == Lookup(before, slot)
  }

  /** `q` is `p` after at most `cost` file operations that leave `file` under `slot`, unless it is cut short. */
  ghost predicate Puts(p: Progress, q: Progress, cost: nat, slot: Slot, file: File) {
    && q.disk == p.disk.(building := q.disk.building)
    && !q.status.Refused?
    && (p.budget >= cost ==> q.status.Running? && q.budget >= p.budget - cost)
    && (q.status.Running? ==>
          p.disk.building.Some? && q.disk.building == Some(p.disk.building.value[slot := file]))
  }

  lemma WriteControlPuts(sec: Security, p: Progress, slot: Slot, text: seq<Byte>)
    requires p.status.Running? && p.disk.building.Some?
    ensures Puts(p, WriteControl(sec, p, slot, text), 2, slot, File(text, sec.private))
  {
    var t, file := p.disk.building.value, File(text, sec.private);
    assert t[slot := File([], sec.private)][slot := file] == t[slot := file];
  }

  lemma CopyPuts(sec: Security, p: Progress, slot: Slot, bytes: seq<Byte>)
    requires p.status.Running? && p.disk.building.Some? && ProvableSecurity(sec) && slot !in p.disk.building.value
    ensures Puts(p, CopyToBuilding(p, slot, File(bytes, sec.private)), 1, slot, File(bytes, sec.private))
  {
  }

  lemma SavePriorKeeps(sec: Security, p: Progress, snap: Snapshot, n: Name)
    requires p.status.Running? && p.disk.building.Some? && ProvableSecurity(sec)
    requires snap.prior == p.disk.coordinator
    requires forall slot :: slot in p.disk.building.value ==> !OwnsSlot(slot, n)
    ensures var q := SavePrior(sec, p, n);
      && q.disk == p.disk.(building := q.disk.building)
      && !q.status.Refused?
      && (p.budget >= 3 ==> q.status.Running? && q.budget >= p.budget - 3)
      && (q.status.Running? ==>
            && q.disk.building.Some? && Admitted(n) !in q.disk.building.value
            && SavedPrior(q.disk.building.value, snap, n)
            && KeepsOtherSlots(p.disk.building.value, q.disk.building.value, n))
  {
    assert OwnsSlot(Prior(n), n) && OwnsSlot(Sddl(n), n) && OwnsSlot(Absent(n), n) && OwnsSlot(Admitted(n), n);
    if n in p.disk.coordinator {
      var file := p.disk.coordinator[n];
      var copied := CopyToBuilding(p, Prior(n), File(file.bytes, sec.private));
      CopyPuts(sec, p, Prior(n), file.bytes);
      if copied.status.Running? { WriteControlPuts(sec, copied, Sddl(n), file.sd); }
    } else {
      WriteControlPuts(sec, p, Absent(n), []);
    }
  }

  lemma SaveAdmittedKeeps(sec: Security, p: Progress, snap: Snapshot, n: Name)
    requires p.status.Running? && p.disk.building.Some? && ProvableSecurity(sec)
    requires StageComplete(p.disk.stage) && snap == SnapshotOf(p.disk)
    requires SavedPrior(p.disk.building.value, snap, n) && Admitted(n) !in p.disk.building.value
    ensures var q := SaveAdmitted(sec, p, n);
      && q.disk == p.disk.(building := q.disk.building)
      && !q.status.Refused?
      && (p.budget >= 1 ==> q.status.Running? && q.budget >= p.budget - 1)
      && (q.status.Running? ==>
            && q.disk.building.Some?
            && Saved(q.disk.building.value, snap, n)
            && KeepsOtherSlots(p.disk.building.value, q.disk.building.value, n))
  {
    assert HasAdmitted(n) ==> Source(n) in p.disk.stage && FILES[Rank(n)] == n;
  }

  /** The files before position `i` are saved in the building directory, and nothing else is there. */
  ghost predicate SavedUpTo(t: Tree, snap: Snapshot, i: nat) {
    && (forall n :: Rank(n) < i ==> Saved(t, snap, n))
    && (forall slot :: slot in t ==> !slot.Prepared? && Rank(slot.n) < i)
  }

  lemma SaveOneExtends(before: Tree, after: Tree, snap: Snapshot, n: Name)
    requires SavedUpTo(before, snap, Rank(n)) && Saved(after, snap, n)
    requires KeepsOtherSlots(before, after, n)
    ensures SavedUpTo(after, snap, Rank(n) + 1)
  {
    RankOfFile(Rank(n));
    forall m | Rank(m) < Rank(n) + 1 ensures Saved(after, snap, m) {
      if m != n {
        assert Saved(before, snap, m);
        assert Lookup(after, Prior(m)) == Lookup(before, Prior(m)) && Lookup(after, Sddl(m)) == Lookup(before, Sddl(m));
        assert Lookup(after, Absent(m)) == Lookup(before, Absent(m)) &&
          Lookup(after, Admitted(m)) == Lookup(before, Admitted(m));
      }
    }
    forall slot | slot in after ensures !slot.Prepared? && Rank(slot.n) < Rank(n) + 1 {
      if !OwnsSlot(slot, n) {
        assert Lookup(after, slot) == Lookup(before, slot);
      }
    }
  }

  lemma {:induction false} SaveFromKeeps(sec: Security, p: Progress, snap: Snapshot, i: nat)
    requires i <= |FILES| && p.status.Running? && p.disk.building.Some? && ProvableSecurity(sec)
    requires StageComplete(p.disk.stage) && snap == SnapshotOf(p.disk)
    requires SavedUpTo(p.disk.building.value, snap, i)
    ensures var q := SaveFrom(sec, p, i);
      && q.disk == p.disk.(building := q.disk.building)
      && !q.status.Refused?
      && (p.budget >= 4 * (|FILES| - i) ==> q.status.Running? && q.budget >= p.budget - 4 * (|FILES| - i))
      && (q.status.Running? ==> q.disk.building.Some? && SavedUpTo(q.disk.building.value, snap, |FILES|))
    decreases |FILES| - i
  {
    if i < |FILES| {
      var n := FILES[i];
      RankOfFile(i);
      SavePriorKeeps(sec, p, snap, n);
      var half := SavePrior(sec, p, n);
      if half.status.Running? {
        SaveAdmittedKeeps(sec, half, snap, n);
        var next := SaveAdmitted(sec, half, n);
        if next.status.Running? {
          SaveOneExtends(p.disk.building.value, next.disk.building.value, snap, n);
          SaveFromKeeps(sec, next, snap, i + 1);
        }
      }
    }
  }

  lemma SavedIsComplete(t: Tree, snap: Snapshot, marked: Tree, marker: File)
    requires SavedUpTo(t, snap, |FILES|) && marked == t[Prepared := marker]
    ensures Complete(marked, snap)
  {
    forall n ensures Saved(marked, snap, n) {
      assert Rank(n) < |FILES| && Saved(t, snap, n);
    }
  }

  lemma StartBuildingKeeps(p: Progress)
    requires p.status.Running? && !HasMarker(p.disk)
    ensures var q := StartBuilding(p);
      && q.disk.coordinator == p.disk.coordinator && q.disk.stage == p.disk.stage
      && !HasMarker(q.disk) && !q.status.Refused?
      && (q.status.Running? ==> q.disk.rollback.None? && q.disk.building == Some(map[]))
      && (p.budget >= 2 * CLEAR_COST + 1 ==> q.status.Running? && q.budget >= p.budget - 2 * CLEAR_COST - 1)
  {
    ClearFromKeeps(p, RollbackSide, 0);
    ClearFromKeeps(ClearFrom(p, RollbackSide, 0), BuildingSide, 0);
  }

  lemma SealKeeps(sec: Security, p: Progress, snap: Snapshot, id: seq<Byte>)
    requires p.disk.rollback.None?
    requires p.status.Running? ==> p.disk.building.Some? && SavedUpTo(p.disk.building.value, snap, |FILES|)
    ensures var q := Seal(sec, p, id);
      && q.disk.coordinator == p.disk.coordinator
      && (HasMarker(q.disk) ==> Published(q.disk, snap) && MarkerNames(q.disk, id))
      && (q.status.Running? ==> HasMarker(q.disk))
      && (p.status.Running? && p.budget >= 3 ==> q.status.Running?)
  {
    if p.status.Running? {
      var t := p.disk.building.value;
      var marked := t[Prepared := File(id, sec.private)];
      SavedIsComplete(t, snap, marked, File(id, sec.private));
      assert t[Prepared := File([], sec.private)][Prepared := File(id, sec.private)] == marked;
    }
  }

  const PREPARE_COST := 2 * CLEAR_COST + 1 + 4 * |FILES| + 3

  /**
   Prepare never touches the coordinator, and only ever publishes a complete rollback set of what it
   read; given enough file operations and an exact, complete stage, it publishes.
   */
  lemma PrepareKeeps(sec: Security, p: Progress, id: seq<Byte>)
    requires p.status.Running? && !HasMarker(p.disk) && ProvableSecurity(sec)
    ensures var q := AfterPrepare(sec, p, id);
      && q.disk.coordinator == p.disk.coordinator
      && (HasMarker(q.disk) ==> Published(q.disk, SnapshotOf(p.disk)) && MarkerNames(q.disk, id))
      && (q.status.Running? ==> HasMarker(q.disk))
      && (StageExact(p.disk.stage) && StageComplete(p.disk.stage) && p.budget >= PREPARE_COST ==> q.status.Running?)
  {
    if StageExact(p.disk.stage) && StageComplete(p.disk.stage) {
      StartBuildingKeeps(p);
      var started := StartBuilding(p);
      if started.status.Running? {
        var snap := SnapshotOf(p.disk);
        SaveFromKeeps(sec, started, snap, 0);
        SealKeeps(sec, SaveFrom(sec, started, 0), snap, id);
      }
    }
  }

  // ---------------------------------------------------------------------------------------------
  // Whole runs
  // ---------------------------------------------------------------------------------------------

  ghost predicate NoCommit(events: seq<Event>) {
    forall i :: 0 <= i < |events| ==> events[i].Call? ==> !events[i].action.Commit?
  }

  /** How many events of a run came before the call that published the marker. */
  ghost function PreparedAt(sec: Security, d: Disk, events: seq<Event>): (k: nat)
    ensures k <= |events|
  {
    if events == [] then 0
    else
      var init := events[..|events| - 1];
      if HasMarker(Run(sec, d, init)) then PreparedAt(sec, d, init) else |init|
  }

  /** The disk that this call of `prepare` found, and so read both versions from. */
  ghost function ReadBy(sec: Security, d: Disk, events: seq<Event>): Disk {
    Run(sec, d, events[..PreparedAt(sec, d, events)])
  }

  lemma ReadByOneMore(sec: Security, d: Disk, events: seq<Event>)
    requires events != []
    ensures var init := events[..|events| - 1];
      ReadBy(sec, d, events) == if HasMarker(Run(sec, d, init)) then ReadBy(sec, d, init) else Run(sec, d, init)
  {
    var init := events[..|events| - 1];
    var k := PreparedAt(sec, d, events);
    assert events[..k] == init[..k];
    assert init[..|init|] == init;
  }

  /** The coordinator is untouched until the marker is there; then the undo of what was read is ready. */
  ghost predicate Undoable(sec: Security, d: Disk, read: Disk, original: map<Name, File>) {
    if HasMarker(d) then read.coordinator == original && Ready(sec, d, SnapshotOf(read))
    else d.coordinator == original
  }

  lemma MarkedStepKeepsReady(sec: Security, d: Disk, snap: Snapshot, e: Event)
    requires HasMarker(d) && Ready(sec, d, snap) && ProvableSecurity(sec)
    requires e.Call? ==> !e.action.Commit?
    ensures HasMarker(Step(sec, d, e)) && Ready(sec, Step(sec, d, e), snap)
  {
    if e.Call? {
      var p := Progress(d, e.budget, Running);
      PromoteFromKeeps(sec, p, snap, 0);
      RestoreFromKeeps(sec, p, snap, 0);
    }
  }

  lemma UnmarkedCallKeepsUndo(sec: Security, d: Disk, e: Event)
    requires !HasMarker(d) && ProvableSecurity(sec) && e.Call? && !e.action.Commit?
    ensures Undoable(sec, Step(sec, d, e), d, d.coordinator)
  {
    PrepareKeeps(sec, Progress(d, e.budget, Running), e.id);
    assert forall n :: IsPrior(d.coordinator, SnapshotOf(d), n);
  }

  lemma StepKeepsUndo(sec: Security, d: Disk, read: Disk, original: map<Name, File>, e: Event)
    requires Undoable(sec, d, read, original) && ProvableSecurity(sec)
    requires e.Call? ==> !e.action.Commit?
    ensures Undoable(sec, Step(sec, d, e), if HasMarker(d) then read else d, original)
  {
    if HasMarker(d) {
      MarkedStepKeepsReady(sec, d, SnapshotOf(read), e);
    } else if e.Call? {
      UnmarkedCallKeepsUndo(sec, d, e);
    }
  }

  /**
   Over every run of prepares, promotions and restores, each killed at any file operation or
   refused, and of any changes to the worker's stage: without a marker the coordinator is untouched;
   with one, the rollback set is complete for what its prepare read, and every coordinator file is
   wholly the prior or wholly the admitted version of that.
   */
  lemma {:induction false} RunKeepsUndo(sec: Security, d: Disk, events: seq<Event>)
    requires !HasMarker(d) && ProvableSecurity(sec) && NoCommit(events)
    ensures Undoable(sec, Run(sec, d, events), ReadBy(sec, d, events), d.coordinator)
  {
    if events != [] {
      var init := events[..|events| - 1];
      RunKeepsUndo(sec, d, init);
      ReadByOneMore(sec, d, events);
      StepKeepsUndo(sec, Run(sec, d, init), ReadBy(sec, d, init), d.coordinator, events[|events| - 1]);
    }
  }

  ghost predicate AllProvable(files: map<Name, File>) {
    forall n :: n in files ==> Provable(files[n].sd)
  }

  /**
   The main result. Once the marker is published, whatever interrupted promotions and restores
   happened, one restore that is not killed puts back exactly the coordinator files from before the
   whole run: same names, same bytes, same descriptors. No call on the way is refused.
   */
  lemma RestoreUndoesAnyRun(sec: Security, d: Disk, events: seq<Event>, id: seq<Byte>, budget: nat)
    requires !HasMarker(d) && ProvableSecurity(sec) && NoCommit(events)
    requires RelocationIdentifier(id) && MarkerNames(Run(sec, d, events), id)
    requires AllProvable(d.coordinator)
    ensures var after := Run(sec, d, events);
      && !Invoke(sec, after, Promote, id, budget).status.Refused?
      && !Invoke(sec, after, Restore, id, budget).status.Refused?
      && (budget >= |FILES| ==> Invoke(sec, after, Restore, id, budget).status.Running?)
      && (Invoke(sec, after, Restore, id, budget).status.Running? ==>
            Invoke(sec, after, Restore, id, budget).disk == after.(coordinator := d.coordinator))
  {
    RunKeepsUndo(sec, d, events);
    var after, snap := Run(sec, d, events), SnapshotOf(ReadBy(sec, d, events));
    assert ProvablePriors(snap);
    var p := Progress(after, budget, Running);
    PromoteFromKeeps(sec, p, snap, 0);
    RestoreFromKeeps(sec, p, snap, 0);
    if RestoreFrom(sec, p, 0).status.Running? {
      CompletedRestoreIsExact(sec, p, snap);
    }
  }

  /**
   After any such run a restore with enough file operations completes exactly when every prior
   descriptor is readable.
   */
  lemma RestoreAfterRunIff(sec: Security, d: Disk, events: seq<Event>, id: seq<Byte>, budget: nat)
    requires !HasMarker(d) && ProvableSecurity(sec) && NoCommit(events) && budget >= |FILES|
    requires RelocationIdentifier(id) && MarkerNames(Run(sec, d, events), id)
    ensures Invoke(sec, Run(sec, d, events), Restore, id, budget).status.Running? <==> AllProvable(d.coordinator)
  {
    RunKeepsUndo(sec, d, events);
    var snap := SnapshotOf(ReadBy(sec, d, events));
    RestoreCompletesIff(sec, Progress(Run(sec, d, events), budget, Running), snap);
    if ProvablePriors(snap) {
      forall n | n in d.coordinator ensures Provable(d.coordinator[n].sd) { assert ProvablePrior(snap, n); }
    }
  }

  /**
   At every moment of such a run each coordinator file is wholly the one from before the run or
   wholly the admitted one: the bytes that the stage held when the marker's prepare read it.
   */
  lemma FilesAreAlwaysWhole(sec: Security, d: Disk, events: seq<Event>, n: Name)
    requires !HasMarker(d) && ProvableSecurity(sec) && NoCommit(events)
    ensures var files := Run(sec, d, events).coordinator; var stage := ReadBy(sec, d, events).stage;
      || Lookup(files, n) == Lookup(d.coordinator, n)
      || (HasMarker(Run(sec, d, events)) &&
            if HasAdmitted(n) then Source(n) in stage &&
              Lookup(files, n) == Some(File(stage[Source(n)].bytes, sec.rollback))
            else n !in files)
  {
    RunKeepsUndo(sec, d, events);
    if HasMarker(Run(sec, d, events)) {
      var files, snap := Run(sec, d, events).coordinator, SnapshotOf(ReadBy(sec, d, events));
      assert IsPrior(files, snap, n) || IsPromoted(sec, files, snap, n);
    }
  }

  /**
   A promotion that completes after any such run leaves the four files with exactly the bytes that
   the stage held when the marker's prepare read it, and no sidecar.
   */
  lemma CompletedPromotionOfRun(sec: Security, d: Disk, events: seq<Event>, id: seq<Byte>, budget: nat, n: Name)
    requires !HasMarker(d) && ProvableSecurity(sec) && NoCommit(events)
    requires Invoke(sec, Run(sec, d, events), Promote, id, budget).status.Running?
    ensures var files := Invoke(sec, Run(sec, d, events), Promote, id, budget).disk.coordinator;
      var stage := ReadBy(sec, d, events).stage;
      if HasAdmitted(n) then Source(n) in stage && Lookup(files, n) == Some(File(stage[Source(n)].bytes, sec.rollback))
      else n !in files
  {
    RunKeepsUndo(sec, d, events);
    var snap, p := SnapshotOf(ReadBy(sec, d, events)), Progress(Run(sec, d, events), budget, Running);
    CompletedPromotionIsTotal(sec, p, snap);
    assert IsPromoted(sec, PromoteFrom(sec, p, 0).disk.coordinator, snap, n);
  }

  lemma {:induction false} CommitFromKeepsRollback(sec: Security, p: Progress, i: nat)
    requires i <= |FILES|
    ensures CommitFrom(sec, p, i).disk == p.disk.(coordinator := CommitFrom(sec, p, i).disk.coordinator)
    decreases |FILES| - i
  {
    if p.status.Running? && i < |FILES| {
      CommitFromKeepsRollback(sec, CommitOne(sec, p, FILES[i]), i + 1);
    }
  }

  lemma {:induction false} PromoteFromKeepsRollback(sec: Security, p: Progress, i: nat)
    requires i <= |FILES|
    ensures PromoteFrom(sec, p, i).disk == p.disk.(coordinator := PromoteFrom(sec, p, i).disk.coordinator)
    decreases |FILES| - i
  {
    if p.status.Running? && i < |FILES| {
      PromoteFromKeepsRollback(sec, PromoteOne(sec, p, FILES[i]), i + 1);
    }
  }

  lemma {:induction false} RestoreFromKeepsRollback(sec: Security, p: Progress, i: nat)
    requires i <= |FILES|
    ensures RestoreFrom(sec, p, i).disk == p.disk.(coordinator := RestoreFrom(sec, p, i).disk.coordinator)
    decreases |FILES| - i
  {
    if p.status.Running? && i < |FILES| {
      RestoreFromKeepsRollback(sec, RestoreOne(sec, p, FILES[i]), i + 1);
    }
  }

  lemma StepKeepsPublished(sec: Security, d: Disk, snap: Snapshot, e: Event)
    requires Published(d, snap)
    ensures Published(Step(sec, d, e), snap)
  {
    if e.Call? {
      var p := Progress(d, e.budget, Running);
      CommitFromKeepsRollback(sec, p, 0);
      PromoteFromKeepsRollback(sec, p, 0);
      RestoreFromKeepsRollback(sec, p, 0);
    }
  }

  /**
   In every state that any run reaches, commits included and kills at any file operation, a marker
   in the rollback directory implies the complete rollback set of what its prepare read.
   */
  lemma {:induction false} MarkerImpliesComplete(sec: Security, d: Disk, events: seq<Event>)
    requires !HasMarker(d) && ProvableSecurity(sec)
    ensures HasMarker(Run(sec, d, events)) ==> Published(Run(sec, d, events), SnapshotOf(ReadBy(sec, d, events)))
  {
    if events != [] {
      var init, e := events[..|events| - 1], events[|events| - 1];
      var before := Run(sec, d, init);
      MarkerImpliesComplete(sec, d, init);
      ReadByOneMore(sec, d, events);
      if HasMarker(before) {
        StepKeepsPublished(sec, before, SnapshotOf(ReadBy(sec, d, init)), e);
      } else if e.Call? {
        PrepareKeeps(sec, Progress(before, e.budget, Running), e.id);
      }
    }
  }

  // ---------------------------------------------------------------------------------------------
  // Where the undo fails
  // ---------------------------------------------------------------------------------------------

  /**
   Prepare does not bound the descriptors it saves, but restore cannot read one back that is longer
   than 64 KiB. So a prepared relocation can be undone exactly when every coordinator file's
   descriptor was short enough before it began.
   */
  lemma PreparedIsUndoableIff(sec: Security, d: Disk, id: seq<Byte>, budget: nat)
    requires ProvableSecurity(sec) && !HasMarker(d) && RelocationIdentifier(id)
    requires StageExact(d.stage) && StageComplete(d.stage) && budget >= |FILES|
    ensures var prepared := Invoke(sec, d, Prepare, id, PREPARE_COST);
      && prepared.status.Running? && MarkerNames(prepared.disk, id)
      && (Invoke(sec, prepared.disk, Restore, id, budget).status.Running? <==> ProvablePriors(SnapshotOf(d)))
  {
    PrepareKeeps(sec, Progress(d, PREPARE_COST, Running), id);
    RestoreOfReadyIff(sec, Invoke(sec, d, Prepare, id, PREPARE_COST).disk, SnapshotOf(d), id, budget);
  }

  lemma RestoreOfReadyIff(sec: Security, d: Disk, snap: Snapshot, id: seq<Byte>, budget: nat)
    requires ProvableSecurity(sec) && RelocationIdentifier(id) && MarkerNames(d, id) && budget >= |FILES|
    requires Published(d, snap) && d.coordinator == snap.prior
    ensures Invoke(sec, d, Restore, id, budget).status.Running? <==> ProvablePriors(snap)
  {
    assert forall n :: IsPrior(d.coordinator, snap, n);
    RestoreCompletesIff(sec, Progress(d, budget, Running), snap);
  }

  function OversizedDisk(): Disk {
    var file := File([], [1]);
    Disk(map[Database := File([], seq(TEXT_LIMIT + 1, _ => 0))],
         map[Source(Database) := file, Source(SshKey) := file, Source(AuthorizedKeys) := file, Source(Handoff) := file],
         None, None)
  }

  lemma {:induction false} RestoreStopsAt(sec: Security, p: Progress, i: nat, n: Name)
    requires i <= Rank(n) && HasMarker(p.disk)
    requires var t := p.disk.rollback.value; Prior(n) in t && Sddl(n) in t && |t[Sddl(n)].bytes| > TEXT_LIMIT
    ensures !RestoreFrom(sec, p, i).status.Running?
    decreases |FILES| - i
  {
    if p.status.Running? {
      RankOfFile(i);
      var next := RestoreOne(sec, p, FILES[i]);
      assert next.disk.rollback == p.disk.rollback;
      if FILES[i] != n { RestoreStopsAt(sec, next, i + 1, n); }
    }
  }

  /** A saved descriptor over the limit stops every restore of every run, commits included. */
  lemma TooLongIsNeverRestored(sec: Security, d: Disk, events: seq<Event>, n: Name, id: seq<Byte>, budget: nat)
    requires !HasMarker(d) && ProvableSecurity(sec) && HasMarker(Run(sec, d, events))
    requires n in ReadBy(sec, d, events).coordinator && |ReadBy(sec, d, events).coordinator[n].sd| > TEXT_LIMIT
    ensures !Invoke(sec, Run(sec, d, events), Restore, id, budget).status.Running?
  {
    MarkerImpliesComplete(sec, d, events);
    assert Saved(Run(sec, d, events).rollback.value, SnapshotOf(ReadBy(sec, d, events)), n);
    RestoreStopsAt(sec, Progress(Run(sec, d, events), budget, Running), 0, n);
  }

  /** Once published, the marker stays, and so does the disk that was read. */
  lemma {:induction false} MarkerStays(sec: Security, d: Disk, first: Event, events: seq<Event>)
    requires !HasMarker(d) && ProvableSecurity(sec) && HasMarker(Step(sec, d, first))
    ensures HasMarker(Run(sec, d, [first] + events)) && ReadBy(sec, d, [first] + events) == d
  {
    var all := [first] + events;
    if events == [] {
      assert all == [first] && all[..0] == [];
      assert Run(sec, d, all) == Step(sec, Run(sec, d, []), first);
      ReadByOneMore(sec, d, all);
    } else {
      var init := [first] + events[..|events| - 1];
      assert all[..|all| - 1] == init;
      MarkerStays(sec, d, first, events[..|events| - 1]);
      ReadByOneMore(sec, d, all);
      MarkerImpliesComplete(sec, d, init);
      StepKeepsPublished(sec, Run(sec, d, init), SnapshotOf(ReadBy(sec, d, init)), all[|all| - 1]);
    }
  }

  /** A disk on which prepare succeeds and no restore ever will, whatever happens in between. */
  lemma OversizedDescriptorIsStranded(sec: Security, id: seq<Byte>, events: seq<Event>, budget: nat)
    requires ProvableSecurity(sec) && RelocationIdentifier(id)
    ensures Invoke(sec, OversizedDisk(), Prepare, id, PREPARE_COST).status.Running?
    ensures var after := Run(sec, OversizedDisk(), [Call(Prepare, id, PREPARE_COST)] + events);
      HasMarker(after) && !Invoke(sec, after, Restore, id, budget).status.Running?
  {
    var d, first := OversizedDisk(), Call(Prepare, id, PREPARE_COST);
    PrepareKeeps(sec, Progress(d, PREPARE_COST, Running), id);
    MarkerStays(sec, d, first, events);
    TooLongIsNeverRestored(sec, d, [first] + events, Database, id, budget);
  }

}
