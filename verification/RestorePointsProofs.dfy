/**
 Rewinding is time travel: after any run of recorded tool changes, restoring from checkpoint k gives
 the file system exactly as it was when the last checkpoint before k ended.
 */
module RestorePointsProofs {

  import opened Basics
  import opened RestorePoints

  /** Entry i's backup, if it has one, is file number i; a path has one entry. */
  ghost predicate WellFormed(c: Checkpoint) {
    && (forall i :: 0 <= i < |c.entries| ==>
          if c.entries[i].existed then c.entries[i].backup == Some(i) && i in c.backups
          else c.entries[i].backup.None?)
    && (forall i, j :: 0 <= i < j < |c.entries| ==> c.entries[i].path != c.entries[j].path)
  }

  ghost predicate AllWellFormed(w: World) {
    forall id :: id in w.checkpoints ==> WellFormed(w.checkpoints[id])
  }

  // ---------------------------------------------------------------------------------------------
  // One checkpoint
  // ---------------------------------------------------------------------------------------------

  /** The state entry `i` puts back. */
  ghost function SavedState(c: Checkpoint, i: nat): Option<Content>
    requires WellFormed(c) && i < |c.entries|
  {
    if c.entries[i].existed then Some(c.backups[i]) else None
  }

  /** The state of `p` once the first `n` entries are put back, given its state before. */
  ghost function StateAfter(c: Checkpoint, n: nat, p: Path, earlier: Option<Content>): Option<Content>
    requires WellFormed(c) && n <= |c.entries|
  {
    if n == 0 then earlier
    else if c.entries[n - 1].path == p then SavedState(c, n - 1)
    else StateAfter(c, n - 1, p, earlier)
  }

  ghost function TouchedBy(c: Checkpoint, n: nat): set<Path>
    requires n <= |c.entries|
  {
    if n == 0 then {} else TouchedBy(c, n - 1) + {c.entries[n - 1].path}
  }

  lemma {:induction false} UntouchedKeeps(c: Checkpoint, n: nat, p: Path, a: Option<Content>, b: Option<Content>)
    requires WellFormed(c) && n <= |c.entries|
    ensures p !in TouchedBy(c, n) ==> StateAfter(c, n, p, a) == a
    ensures p in TouchedBy(c, n) ==> StateAfter(c, n, p, a) == StateAfter(c, n, p, b)
  {
    if n > 0 { UntouchedKeeps(c, n - 1, p, a, b); }
  }

  /** What the report says of a path is what the files show. */
  ghost predicate Truthful(r: Rewind) {
    forall p :: p in r.finalStates ==> (r.finalStates[p] <==> p in r.files)
  }

  /** Replaying a well-formed manifest succeeds, sets the recorded paths, and leaves the others. */
  lemma {:induction false} PutBackToEffect(r: Rewind, c: Checkpoint, n: nat)
    requires WellFormed(c) && n <= |c.entries|
    ensures PutBackTo(r, c, n).Some?
    ensures var q := PutBackTo(r, c, n).value;
      && (forall p :: Lookup(q.files, p) == StateAfter(c, n, p, Lookup(r.files, p)))
      && q.finalStates.Keys == r.finalStates.Keys + TouchedBy(c, n)
      && (Truthful(r) ==> Truthful(q))
  {
    if n > 0 {
      PutBackToEffect(r, c, n - 1);
      var before := PutBackTo(r, c, n - 1).value;
      var e := c.entries[n - 1];
      assert e.existed ==> Backup(c, e) == Some(c.backups[n - 1]);
    }
  }

  lemma {:induction false} TouchedIsRecorded(c: Checkpoint, n: nat, p: Path)
    requires n <= |c.entries|
    ensures p in TouchedBy(c, n) <==> exists i :: 0 <= i < n && c.entries[i].path == p
  {
    if n > 0 { TouchedIsRecorded(c, n - 1, p); }
  }

  // ---------------------------------------------------------------------------------------------
  // All checkpoints from one on
  // ---------------------------------------------------------------------------------------------

  ghost predicate AllIn(w: map<nat, Checkpoint>, ids: seq<nat>) {
    forall i :: 0 <= i < |ids| ==> ids[i] in w && WellFormed(w[ids[i]])
  }

  ghost function TouchedByAll(checkpoints: map<nat, Checkpoint>, ids: seq<nat>): set<Path>
    requires AllIn(checkpoints, ids)
    decreases |ids|
  {
    if ids == [] then {}
    else TouchedBy(checkpoints[ids[0]], |checkpoints[ids[0]].entries|) + TouchedByAll(checkpoints, ids[1..])
  }

  /**
   Two rewinds over the same checkpoints end with the same files when they start with files that
   differ only on paths these checkpoints touch.
   */
  lemma {:induction false} RewindIgnoresTouched(r: Rewind, s: Rewind, checkpoints: map<nat, Checkpoint>, ids: seq<nat>)
    requires AllIn(checkpoints, ids)
    requires forall p :: p !in TouchedByAll(checkpoints, ids) ==> Lookup(r.files, p) == Lookup(s.files, p)
    ensures PutBackAll(r, checkpoints, ids).Some? && PutBackAll(s, checkpoints, ids).Some?
    ensures PutBackAll(r, checkpoints, ids).value.files == PutBackAll(s, checkpoints, ids).value.files
    decreases |ids|
  {
    if ids == [] {
      SameLookups(r.files, s.files);
    } else {
      var c := checkpoints[ids[0]];
      PutBackToEffect(r, c, |c.entries|);
      PutBackToEffect(s, c, |c.entries|);
      var r', s' := PutBackTo(r, c, |c.entries|).value, PutBackTo(s, c, |c.entries|).value;
      forall p | p !in TouchedByAll(checkpoints, ids[1..]) ensures Lookup(r'.files, p) == Lookup(s'.files, p) {
        UntouchedKeeps(c, |c.entries|, p, Lookup(r.files, p), Lookup(s.files, p));
        UntouchedKeeps(c, |c.entries|, p, Lookup(s.files, p), Lookup(r.files, p));
      }
      RewindIgnoresTouched(r', s', checkpoints, ids[1..]);
    }
  }

  /** A rewind leaves untouched paths alone and reports exactly the touched ones, truthfully. */
  lemma {:induction false} RewindReports(r: Rewind, checkpoints: map<nat, Checkpoint>, ids: seq<nat>)
    requires AllIn(checkpoints, ids) && Truthful(r)
    ensures PutBackAll(r, checkpoints, ids).Some?
    ensures var q := PutBackAll(r, checkpoints, ids).value;
      && (forall p :: p !in TouchedByAll(checkpoints, ids) ==> Lookup(q.files, p) == Lookup(r.files, p))
      && q.finalStates.Keys == r.finalStates.Keys + TouchedByAll(checkpoints, ids)
      && Truthful(q)
    decreases |ids|
  {
    if ids != [] {
      var c := checkpoints[ids[0]];
      PutBackToEffect(r, c, |c.entries|);
      var r' := PutBackTo(r, c, |c.entries|).value;
      RewindReports(r', checkpoints, ids[1..]);
      var q := PutBackAll(r, checkpoints, ids).value;
      forall p | p !in TouchedByAll(checkpoints, ids) ensures Lookup(q.files, p) == Lookup(r.files, p) {
        UntouchedKeeps(c, |c.entries|, p, Lookup(r.files, p), None);
      }
    }
  }

  lemma RestoreIdsAreIn(w: World, id: nat)
    requires AllWellFormed(w)
    ensures AllIn(w.checkpoints, NewestFirst(IdsFrom(w.checkpoints, id)))
  {
  }

  /** The paths recorded by any checkpoint from `id` on. */
  ghost function TouchedFrom(w: World, id: nat): set<Path>
    requires AllWellFormed(w)
  {
    RestoreIdsAreIn(w, id);
    TouchedByAll(w.checkpoints, NewestFirst(IdsFrom(w.checkpoints, id)))
  }

  lemma {:induction false} NewestFirstCovers(s: set<nat>, n: nat)
    requires n in s
    ensures n in NewestFirst(s)
    decreases |s|
  {
    NewestExists(s);
    var m := NewestFirst(s)[0];
    if n != m { NewestFirstCovers(s - {m}, n); }
  }

  lemma {:induction false} TouchedByAllIs(checkpoints: map<nat, Checkpoint>, ids: seq<nat>, p: Path)
    requires AllIn(checkpoints, ids)
    ensures p in TouchedByAll(checkpoints, ids) <==> exists i :: 0 <= i < |ids| && Records(checkpoints[ids[i]], p)
    decreases |ids|
  {
    if ids != [] {
      var c := checkpoints[ids[0]];
      TouchedIsRecorded(c, |c.entries|, p);
      TouchedByAllIs(checkpoints, ids[1..], p);
      if exists i :: 0 <= i < |ids| && Records(checkpoints[ids[i]], p) {
        var i :| 0 <= i < |ids| && Records(checkpoints[ids[i]], p);
        assert i > 0 ==> ids[1..][i - 1] == ids[i];
      }
      if p in TouchedByAll(checkpoints, ids[1..]) {
        var i :| 0 <= i < |ids[1..]| && Records(checkpoints[ids[1..][i]], p);
        assert ids[i + 1] == ids[1..][i];
      }
    }
  }

  /** Touched from `id` on means recorded by some checkpoint from `id` on. */
  lemma TouchedFromIs(w: World, id: nat, p: Path)
    requires AllWellFormed(w)
    ensures p in TouchedFrom(w, id) <==> exists n :: n in w.checkpoints && n >= id && Records(w.checkpoints[n], p)
  {
    var ids := NewestFirst(IdsFrom(w.checkpoints, id));
    RestoreIdsAreIn(w, id);
    TouchedByAllIs(w.checkpoints, ids, p);
    forall n | n in w.checkpoints && n >= id ensures n in ids {
      NewestFirstCovers(IdsFrom(w.checkpoints, id), n);
    }
  }

  /**
   `restore_from` on any store it wrote: it succeeds, changes only paths recorded from `id` on, and
   reports exactly those paths, each as restored if it exists afterwards and as deleted if not.
   */
  lemma RestoreReportsExactly(w: World, id: nat)
    requires AllWellFormed(w)
    ensures RestoreFrom(w, id).Some?
    ensures var r := RestoreFrom(w, id).value;
      && Restored(r) == TouchedFrom(w, id) * r.files.Keys
      && Deleted(r) == TouchedFrom(w, id) - r.files.Keys
      && forall p :: p !in TouchedFrom(w, id) ==> Lookup(r.files, p) == Lookup(w.files, p)
  {
    RestoreIdsAreIn(w, id);
    RewindReports(Rewind(w.files, map[]), w.checkpoints, NewestFirst(IdsFrom(w.checkpoints, id)));
    var r := RestoreFrom(w, id).value;
    assert r.finalStates.Keys == TouchedFrom(w, id);
  }

  /** Rewinding twice, the second time at least as far, is rewinding once. */
  lemma RestoreAbsorbsLaterRestore(w: World, j: nat, k: nat)
    requires AllWellFormed(w) && j <= k
    ensures RestoreFrom(w, k).Some? && RestoreFrom(w, j).Some?
    ensures var after := w.(files := RestoreFrom(w, k).value.files);
      && RestoreFrom(after, j).Some?
      && RestoreFrom(after, j).value.files == RestoreFrom(w, j).value.files
  {
    RestoreReportsExactly(w, k);
    var after := w.(files := RestoreFrom(w, k).value.files);
    RestoreIdsAreIn(w, j);
    var ids := NewestFirst(IdsFrom(w.checkpoints, j));
    forall p | p !in TouchedByAll(w.checkpoints, ids) ensures Lookup(after.files, p) == Lookup(w.files, p) {
      TouchedFromIs(w, j, p);
      TouchedFromIs(w, k, p);
    }
    RewindIgnoresTouched(Rewind(after.files, map[]), Rewind(w.files, map[]), w.checkpoints, ids);
  }

  // ---------------------------------------------------------------------------------------------
  // Runs
  // ---------------------------------------------------------------------------------------------

  lemma RecordKeepsWellFormed(w: World, id: nat, path: Path)
    requires AllWellFormed(w)
    ensures AllWellFormed(Record(w, id, path))
    ensures Records(CheckpointAt(Record(w, id, path), id), path)
  {
    var c := CheckpointAt(w, id);
    assert WellFormed(c);
    if !Records(c, path) {
      var c' := AddEntry(c, path, Lookup(w.files, path));
      assert WellFormed(c');
      assert c'.entries[|c.entries|].path == path;
    }
  }

  /** Recording a path again in the same checkpoint changes nothing. */
  lemma RecordIsIdempotent(w: World, id: nat, path: Path)
    requires id in w.checkpoints && Records(w.checkpoints[id], path)
    ensures Record(w, id, path) == w
  {
  }

  ghost predicate IdsAtMost(w: World, id: nat) {
    forall n :: n in w.checkpoints ==> n <= id
  }

  lemma {:induction false} RunIsWellFormed(w: World, events: seq<Event>)
    requires AllWellFormed(w) && w.checkpoints == map[]
    requires NonDecreasing(events)
    ensures AllWellFormed(Run(w, events))
    ensures events != [] ==> IdsAtMost(Run(w, events), events[|events| - 1].id)
    ensures events == [] ==> Run(w, events).checkpoints == map[]
  {
    if events != [] {
      var init := events[..|events| - 1];
      var e := events[|events| - 1];
      RunIsWellFormed(w, init);
      RecordKeepsWellFormed(Run(w, init), e.id, e.path);
    }
  }

  /** The newest checkpoint is replayed first, the older ones after it. */
  lemma NewestIsHead(checkpoints: map<nat, Checkpoint>, id: nat, k: nat)
    requires id in checkpoints && k <= id && forall n :: n in checkpoints ==> n <= id
    ensures NewestFirst(IdsFrom(checkpoints, k)) == [id] + NewestFirst(IdsFrom(checkpoints, k) - {id})
  {
    assert id in IdsFrom(checkpoints, k);
    NewestExists(IdsFrom(checkpoints, k));
    assert forall m :: IsNewest(IdsFrom(checkpoints, k), m) ==> m == id;
  }

  /** A rewind over [id] + ids puts back checkpoint `id`, recorded or not, and then the others. */
  lemma RestoreThroughNewest(w: World, id: nat, k: nat)
    requires AllWellFormed(w) && IdsAtMost(w, id) && k <= id
    ensures var c := CheckpointAt(w, id);
      var older := NewestFirst(IdsFrom(w.checkpoints, k) - {id});
      && WellFormed(c) && AllIn(w.checkpoints, older)
      && PutBackTo(Rewind(w.files, map[]), c, |c.entries|).Some?
      && RestoreFrom(w, k) == PutBackAll(PutBackTo(Rewind(w.files, map[]), c, |c.entries|).value, w.checkpoints, older)
  {
    var c := CheckpointAt(w, id);
    assert WellFormed(c);
    PutBackToEffect(Rewind(w.files, map[]), c, |c.entries|);
    var older := NewestFirst(IdsFrom(w.checkpoints, k) - {id});
    if id in w.checkpoints {
      NewestIsHead(w.checkpoints, id, k);
      assert ([id] + older)[1..] == older;
    } else {
      assert IdsFrom(w.checkpoints, k) - {id} == IdsFrom(w.checkpoints, k);
    }
  }

  lemma {:induction false} SameOlderCheckpoints(r: Rewind, a: map<nat, Checkpoint>, b: map<nat, Checkpoint>,
      ids: seq<nat>)
    requires AllIn(a, ids) && AllIn(b, ids) && forall i :: 0 <= i < |ids| ==> a[ids[i]] == b[ids[i]]
    ensures PutBackAll(r, a, ids) == PutBackAll(r, b, ids)
    decreases |ids|
  {
    if ids != [] {
      var c := a[ids[0]];
      var q := PutBackTo(r, c, |c.entries|);
      if q.Some? { SameOlderCheckpoints(q.value, a, b, ids[1..]); }
    }
  }

  /** The new manifest entry undoes the change it was recorded for. */
  lemma FreshEntryUndoes(w: World, c: Checkpoint, e: Event, p: Path)
    requires WellFormed(c) && !Records(c, e.path)
    ensures var c' := AddEntry(c, e.path, Lookup(w.files, e.path));
      && WellFormed(c')
      && StateAfter(c', |c'.entries|, p, Lookup(Changed(w.files, e.path, e.change), p)) ==
         StateAfter(c, |c.entries|, p, Lookup(w.files, p))
  {
    var c' := AddEntry(c, e.path, Lookup(w.files, e.path));
    assert WellFormed(c');
    TouchedIsRecorded(c, |c.entries|, p);
    if p == e.path {
      UntouchedKeeps(c, |c.entries|, p, Lookup(w.files, p), None);
    } else {
      StatesOfPrefix(c, c', |c.entries|, p, Lookup(w.files, p));
    }
  }

  lemma NewestCheckpointUndoes(w: World, e: Event, p: Path)
    requires AllWellFormed(w)
    ensures var w' := Apply(w, e);
      var c, c' := CheckpointAt(w, e.id), CheckpointAt(w', e.id);
      && WellFormed(c) && WellFormed(c')
      && StateAfter(c', |c'.entries|, p, Lookup(w'.files, p)) == StateAfter(c, |c.entries|, p, Lookup(w.files, p))
  {
    var c := CheckpointAt(w, e.id);
    assert WellFormed(c);
    if Records(c, e.path) {
      TouchedIsRecorded(c, |c.entries|, e.path);
      UntouchedKeeps(c, |c.entries|, p, Lookup(Apply(w, e).files, p), Lookup(w.files, p));
    } else {
      FreshEntryUndoes(w, c, e, p);
    }
  }

  lemma {:induction false} StatesOfPrefix(c: Checkpoint, c': Checkpoint, n: nat, p: Path, earlier: Option<Content>)
    requires WellFormed(c) && WellFormed(c') && n <= |c.entries| < |c'.entries|
    requires c.entries == c'.entries[..|c.entries|]
    requires forall i :: 0 <= i < |c.entries| ==> Lookup(c.backups, i) == Lookup(c'.backups, i)
    ensures StateAfter(c', n, p, earlier) == StateAfter(c, n, p, earlier)
  {
    if n > 0 {
      assert c'.entries[n - 1] == c.entries[n - 1];
      assert Lookup(c.backups, n - 1) == Lookup(c'.backups, n - 1);
      StatesOfPrefix(c, c', n - 1, p, earlier);
    }
  }

  /** One more recorded change in the newest checkpoint makes no difference to a rewind past it. */
  lemma ChangeIsUndone(w: World, e: Event, k: nat)
    requires AllWellFormed(w) && IdsAtMost(w, e.id) && k <= e.id
    ensures RestoreFrom(w, k).Some? && RestoreFrom(Apply(w, e), k).Some?
    ensures RestoreFrom(Apply(w, e), k).value.files == RestoreFrom(w, k).value.files
  {
    var w' := Apply(w, e);
    RecordKeepsWellFormed(w, e.id, e.path);
    RestoreThroughNewest(w, e.id, k);
    RestoreThroughNewest(w', e.id, k);
    assert IdsFrom(w'.checkpoints, k) - {e.id} == IdsFrom(w.checkpoints, k) - {e.id};
    var older := NewestFirst(IdsFrom(w.checkpoints, k) - {e.id});
    var c, c' := CheckpointAt(w, e.id), CheckpointAt(w', e.id);
    var r, r' := PutBackTo(Rewind(w.files, map[]), c, |c.entries|).value,
      PutBackTo(Rewind(w'.files, map[]), c', |c'.entries|).value;
    PutBackToEffect(Rewind(w.files, map[]), c, |c.entries|);
    PutBackToEffect(Rewind(w'.files, map[]), c', |c'.entries|);
    forall p ensures Lookup(r.files, p) == Lookup(r'.files, p) { NewestCheckpointUndoes(w, e, p); }
    SameLookups(r.files, r'.files);
    SameOlderCheckpoints(r', w.checkpoints, w'.checkpoints, older);
    RewindIgnoresTouched(r, r', w.checkpoints, older);
  }

  lemma {:induction false} AllEventsAreBefore(events: seq<Event>, id: nat)
    requires forall i :: 0 <= i < |events| ==> events[i].id < id
    ensures EventsBefore(events, id) == events
  {
    if events != [] {
      AllEventsAreBefore(events[..|events| - 1], id);
      assert events == events[..|events| - 1] + [events[|events| - 1]];
    }
  }

  /**
   The main result. After any run of recorded changes with non-decreasing checkpoint numbers,
   `restore_from(k)` succeeds and its files are exactly those of the moment the first change of any
   checkpoint from `k` on was about to happen.
   */
  lemma {:induction false} RestoreIsTimeTravel(w: World, events: seq<Event>, k: nat)
    requires w.checkpoints == map[] && NonDecreasing(events)
    ensures RestoreFrom(Run(w, events), k).Some?
    ensures RestoreFrom(Run(w, events), k).value.files == Run(w, EventsBefore(events, k)).files
  {
    RunIsWellFormed(w, events);
    if events == [] || events[|events| - 1].id < k {
      AllEventsAreBefore(events, k);
      var after := Run(w, events);
      assert IdsFrom(after.checkpoints, k) == {};
    } else {
      var init := events[..|events| - 1];
      RestoreIsTimeTravel(w, init, k);
      RunIsWellFormed(w, init);
      ChangeIsUndone(Run(w, init), events[|events| - 1], k);
    }
  }

}
