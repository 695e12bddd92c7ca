/**
 Rewinds among the changes (crates/roost-agent-tools/src/restore_points.rs): a rewind leaves the
 checkpoints in place, so what they saved on an abandoned branch stays. Exactly which steps move what
 a restore from `k` gives, and which runs with rewinds keep it.
 */
module Rewinds {

  import opened Basics
  import opened RestorePoints
  import opened RestorePointsProofs

  // ---------------------------------------------------------------------------------------------
  // What a restore gives, path by path
  // ---------------------------------------------------------------------------------------------

  /** The checkpoint `id` recorded `p`. */
  ghost predicate Has(w: World, id: nat, p: Path) {
    id in w.checkpoints && Records(w.checkpoints[id], p)
  }

  /** The oldest checkpoint from `k` on that recorded `p`. */
  ghost predicate IsOldest(w: World, k: nat, p: Path, id: nat) {
    id >= k && Has(w, id, p) && forall n :: k <= n < id ==> !Has(w, n, p)
  }

  ghost predicate NoneHas(w: World, k: nat, p: Path) {
    forall n :: n >= k ==> !Has(w, n, p)
  }

  /** What a checkpoint saved of a path. */
  ghost function Saved(w: World, id: nat, p: Path): Option<Content>
    requires AllWellFormed(w) && id in w.checkpoints
  {
    StateAfter(w.checkpoints[id], |w.checkpoints[id].entries|, p, None)
  }

  ghost function StateAfterAll(checkpoints: map<nat, Checkpoint>, ids: seq<nat>, p: Path, now: Option<Content>)
      : Option<Content>
    requires AllIn(checkpoints, ids)
    decreases |ids|
  {
    if ids == [] then now
    else
      var c := checkpoints[ids[0]];
      StateAfterAll(checkpoints, ids[1..], p, StateAfter(c, |c.entries|, p, now))
  }

  lemma {:induction false} PutBackAllEffect(r: Rewind, checkpoints: map<nat, Checkpoint>, ids: seq<nat>, p: Path)
    requires AllIn(checkpoints, ids)
    ensures PutBackAll(r, checkpoints, ids).Some?
    ensures Lookup(PutBackAll(r, checkpoints, ids).value.files, p) ==
      StateAfterAll(checkpoints, ids, p, Lookup(r.files, p))
    decreases |ids|
  {
    if ids != [] {
      var c := checkpoints[ids[0]];
      PutBackToEffect(r, c, |c.entries|);
      PutBackAllEffect(PutBackTo(r, c, |c.entries|).value, checkpoints, ids[1..], p);
    }
  }

  ghost predicate Descending(ids: seq<nat>) {
    forall i, j :: 0 <= i < j < |ids| ==> ids[i] > ids[j]
  }

  lemma {:induction false} NewestFirstDescends(s: set<nat>)
    ensures Descending(NewestFirst(s))
    decreases |s|
  {
    if s != {} {
      NewestExists(s);
      var ids := NewestFirst(s);
      var m :| IsNewest(s, m) && ids == [m] + NewestFirst(s - {m});
      NewestFirstDescends(s - {m});
      forall i, j | 0 <= i < j < |ids| ensures ids[i] > ids[j] {
        assert ids[j] == NewestFirst(s - {m})[j - 1] && ids[j] in s - {m};
      }
    }
  }

  /** Where nothing recorded the path it stays; where one did last, its state is put back. */
  lemma {:induction false} LastRecordWins(w: World, ids: seq<nat>, p: Path, now: Option<Content>, at: nat)
    requires AllWellFormed(w) && AllIn(w.checkpoints, ids) && at <= |ids|
    requires forall i :: at <= i < |ids| ==> !Has(w, ids[i], p)
    requires at > 0 ==> Has(w, ids[at - 1], p)
    ensures StateAfterAll(w.checkpoints, ids, p, now) == if at == 0 then now else Saved(w, ids[at - 1], p)
    decreases |ids|
  {
    if ids != [] {
      var c := w.checkpoints[ids[0]];
      var next := StateAfter(c, |c.entries|, p, now);
      TouchedIsRecorded(c, |c.entries|, p);
      UntouchedKeeps(c, |c.entries|, p, now, None);
      assert forall i :: 0 <= i < |ids| - 1 ==> ids[1..][i] == ids[i + 1];
      if at == 1 {
        assert Has(w, ids[0], p);
        LastRecordWins(w, ids[1..], p, next, 0);
      } else {
        LastRecordWins(w, ids[1..], p, next, if at == 0 then 0 else at - 1);
      }
    }
  }

  /** What a restore from `k` makes of a path: what the oldest checkpoint from `k` on saved of it. */
  lemma RestoreGives(w: World, k: nat, p: Path)
    requires AllWellFormed(w)
    ensures RestoreFrom(w, k).Some?
    ensures NoneHas(w, k, p) ==> Lookup(RestoreFrom(w, k).value.files, p) == Lookup(w.files, p)
    ensures forall id :: IsOldest(w, k, p, id) ==> Lookup(RestoreFrom(w, k).value.files, p) == Saved(w, id, p)
  {
    var ids := NewestFirst(IdsFrom(w.checkpoints, k));
    RestoreIdsAreIn(w, k);
    PutBackAllEffect(Rewind(w.files, map[]), w.checkpoints, ids, p);
    if NoneHas(w, k, p) { LastRecordWins(w, ids, p, Lookup(w.files, p), 0); }
    forall id | IsOldest(w, k, p, id) ensures Lookup(RestoreFrom(w, k).value.files, p) == Saved(w, id, p) {
      NewestFirstCovers(IdsFrom(w.checkpoints, k), id);
      NewestFirstDescends(IdsFrom(w.checkpoints, k));
      var i :| 0 <= i < |ids| && ids[i] == id;
      LastRecordWins(w, ids, p, Lookup(w.files, p), i + 1);
    }
  }

  /** Some checkpoint is the oldest, if any recorded the path. */
  lemma {:induction false} OldestExists(w: World, k: nat, p: Path, n: nat)
    requires n >= k && Has(w, n, p)
    ensures exists id :: IsOldest(w, k, p, id)
    decreases n
  {
    if m :| k <= m < n && Has(w, m, p) {
      OldestExists(w, k, p, m);
    } else {
      assert IsOldest(w, k, p, n);
    }
  }

  lemma OldestIsOne(w: World, k: nat, p: Path, m: nat)
    requires IsOldest(w, k, p, m)
    ensures forall id: nat :: IsOldest(w, k, p, id) ==> id == m
  {
  }

  // ---------------------------------------------------------------------------------------------
  // Steps
  // ---------------------------------------------------------------------------------------------

  /** A recorded change, or a rewind, which changes the files and no checkpoint. */
  datatype Step = Change(event: Event) | RewindTo(id: nat)

  ghost function After(w: World, s: Step): World {
    match s
    case Change(e) => Apply(w, e)
    case RewindTo(id) => if RestoreFrom(w, id).Some? then w.(files := RestoreFrom(w, id).value.files) else w
  }

  ghost function RunSteps(w: World, steps: seq<Step>): World {
    if steps == [] then w else After(RunSteps(w, steps[..|steps| - 1]), steps[|steps| - 1])
  }

  lemma AfterIsWellFormed(w: World, s: Step)
    requires AllWellFormed(w)
    ensures AllWellFormed(After(w, s))
  {
    if s.Change? { RecordKeepsWellFormed(w, s.event.id, s.event.path); }
  }

  /**
   The step moves what a restore from `k` gives. A change before `k` does so when it alters a file that
   no checkpoint from `k` on saved. A change from `k` on does so when it is the first to save the path
   although a later checkpoint, of an abandoned branch, saved it in another state. A rewind past `k`
   does so when it alters a file that no checkpoint from `k` on saved.
   */
  ghost predicate Disturbs(w: World, s: Step, k: nat)
    requires AllWellFormed(w)
  {
    match s
    case Change(e) =>
      if e.id < k then NoneHas(w, k, e.path) && Changed(w.files, e.path, e.change) != w.files
      else exists m: nat :: IsOldest(w, k, e.path, m) && m > e.id && Saved(w, m, e.path) != Lookup(w.files, e.path)
    case RewindTo(id) =>
      exists p, m: nat :: NoneHas(w, k, p) && IsOldest(w, id, p, m) && Saved(w, m, p) != Lookup(w.files, p)
  }

  /** What a restore from `k` gives of a path. */
  ghost function Given(w: World, k: nat, p: Path): Option<Content>
    requires AllWellFormed(w)
  {
    RestoreReportsExactly(w, k);
    Lookup(RestoreFrom(w, k).value.files, p)
  }

  ghost predicate SameRestore(w: World, v: World, k: nat)
    requires AllWellFormed(w) && AllWellFormed(v)
  {
    forall p :: Given(v, k, p) == Given(w, k, p)
  }

  // What recording does to the checkpoints.

  lemma RecordHas(w: World, e: Event, n: nat, p: Path)
    requires AllWellFormed(w)
    ensures AllWellFormed(Apply(w, e))
    ensures Has(Apply(w, e), n, p) <==> Has(w, n, p) || (n == e.id && p == e.path)
    ensures Has(w, n, p) ==> Saved(Apply(w, e), n, p) == Saved(w, n, p)
    ensures !Has(w, e.id, e.path) ==> Saved(Apply(w, e), e.id, e.path) == Lookup(w.files, e.path)
  {
    RecordKeepsWellFormed(w, e.id, e.path);
    var c := CheckpointAt(w, e.id);
    assert WellFormed(c);
    if !Records(c, e.path) {
      AddedRecords(c, e.path, Lookup(w.files, e.path), p);
      AddedSaves(c, e.path, Lookup(w.files, e.path), p);
    }
  }

  lemma AddedSaves(c: Checkpoint, path: Path, prior: Option<Content>, p: Path)
    requires WellFormed(c) && !Records(c, path)
    ensures var c' := AddEntry(c, path, prior);
      && WellFormed(c')
      && StateAfter(c', |c'.entries|, p, None) == if p == path then prior else StateAfter(c, |c.entries|, p, None)
  {
    var c' := AddEntry(c, path, prior);
    assert WellFormed(c');
    StatesOfPrefix(c, c', |c.entries|, p, None);
  }

  lemma AddedRecords(c: Checkpoint, path: Path, prior: Option<Content>, p: Path)
    ensures Records(AddEntry(c, path, prior), p) <==> Records(c, p) || p == path
  {
    var c' := AddEntry(c, path, prior);
    assert c'.entries[|c.entries|].path == path;
    if i :| 0 <= i < |c.entries| && c.entries[i].path == p { assert c'.entries[i].path == p; }
    if i :| 0 <= i < |c'.entries| && c'.entries[i].path == p { assert i < |c.entries| ==> c.entries[i].path == p; }
  }

  lemma SameRecordsGiveAlike(w: World, v: World, k: nat, p: Path)
    requires AllWellFormed(w) && AllWellFormed(v)
    requires forall n: nat :: n >= k ==> Has(v, n, p) == Has(w, n, p)
    requires forall n: nat :: n >= k && Has(w, n, p) && Has(v, n, p) ==> Saved(v, n, p) == Saved(w, n, p)
    ensures !NoneHas(w, k, p) || Lookup(v.files, p) == Lookup(w.files, p) ==> Given(v, k, p) == Given(w, k, p)
    ensures NoneHas(w, k, p) ==> Given(v, k, p) == Lookup(v.files, p) && Given(w, k, p) == Lookup(w.files, p)
  {
    RestoreGives(w, k, p);
    RestoreGives(v, k, p);
    if n: nat :| n >= k && Has(w, n, p) {
      OldestExists(w, k, p, n);
      var m: nat :| IsOldest(w, k, p, m);
      assert IsOldest(v, k, p, m);
    } else {
      assert NoneHas(w, k, p) && NoneHas(v, k, p);
    }
  }

  // ---------------------------------------------------------------------------------------------
  // One step
  // ---------------------------------------------------------------------------------------------

  /** A change leaves what a restore gives of the other paths. */
  lemma ChangeElsewhere(w: World, e: Event, k: nat, p: Path)
    requires AllWellFormed(w) && p != e.path
    ensures AllWellFormed(Apply(w, e)) && Given(Apply(w, e), k, p) == Given(w, k, p)
  {
    RecordKeepsWellFormed(w, e.id, e.path);
    forall n: nat
      ensures Has(Apply(w, e), n, p) == Has(w, n, p)
      ensures Has(w, n, p) ==> Saved(Apply(w, e), n, p) == Saved(w, n, p)
    {
      RecordHas(w, e, n, p);
    }
    SameRecordsGiveAlike(w, Apply(w, e), k, p);
  }

  /** A change that saves nothing new from `k` on. */
  lemma ChangeSavesNothing(w: World, e: Event, k: nat)
    requires AllWellFormed(w) && (e.id < k || Has(w, e.id, e.path))
    ensures AllWellFormed(Apply(w, e))
    ensures Given(Apply(w, e), k, e.path) == Given(w, k, e.path) <==>
      !(NoneHas(w, k, e.path) && Changed(w.files, e.path, e.change) != w.files)
  {
    var v := Apply(w, e);
    RecordKeepsWellFormed(w, e.id, e.path);
    forall n: nat | n >= k
      ensures Has(v, n, e.path) == Has(w, n, e.path)
      ensures Has(w, n, e.path) ==> Saved(v, n, e.path) == Saved(w, n, e.path)
    {
      RecordHas(w, e, n, e.path);
    }
    SameRecordsGiveAlike(w, v, k, e.path);
    ChangedAtPath(w.files, e.path, e.change);
  }

  lemma ChangedAtPath(files: Files, path: Path, change: RestorePoints.Change)
    ensures Changed(files, path, change) == files <==>
      Lookup(Changed(files, path, change), path) == Lookup(files, path)
  {
    var after := Changed(files, path, change);
    if Lookup(after, path) == Lookup(files, path) {
      forall p ensures Lookup(after, p) == Lookup(files, p) {
      }
      SameLookups(after, files);
    }
  }

  /** A change from `k` on that is the first of its checkpoint to save the path. */
  lemma ChangeSaves(w: World, e: Event, k: nat)
    requires AllWellFormed(w) && e.id >= k && !Has(w, e.id, e.path)
    ensures AllWellFormed(Apply(w, e))
    ensures Given(Apply(w, e), k, e.path) == Given(w, k, e.path) <==> !Disturbs(w, Change(e), k)
  {
    var v, p := Apply(w, e), e.path;
    RecordKeepsWellFormed(w, e.id, p);
    forall n: nat ensures Has(v, n, p) <==> Has(w, n, p) || n == e.id { RecordHas(w, e, n, p); }
    RestoreGives(w, k, p);
    if n: nat :| n >= k && Has(w, n, p) {
      OldestExists(w, k, p, n);
      var m: nat :| IsOldest(w, k, p, m);
      OldestIsOne(w, k, p, m);
      var oldest := if m < e.id then m else e.id;
      assert IsOldest(v, k, p, oldest);
      SavedIsGiven(w, e, k, oldest);
    } else {
      assert NoneHas(w, k, p) && IsOldest(v, k, p, e.id);
      SavedIsGiven(w, e, k, e.id);
    }
  }

  /** After the change, what the oldest checkpoint saved is given: its own prior if it is the one that saves anew. */
  lemma SavedIsGiven(w: World, e: Event, k: nat, oldest: nat)
    requires AllWellFormed(w) && !Has(w, e.id, e.path) && IsOldest(Apply(w, e), k, e.path, oldest)
    ensures AllWellFormed(Apply(w, e)) && (Has(w, oldest, e.path) || oldest == e.id)
    ensures Given(Apply(w, e), k, e.path) ==
      if oldest == e.id then Lookup(w.files, e.path) else Saved(w, oldest, e.path)
  {
    RecordHas(w, e, oldest, e.path);
    RestoreGives(Apply(w, e), k, e.path);
  }

  lemma ChangeMovesIff(w: World, e: Event, k: nat)
    requires AllWellFormed(w)
    ensures AllWellFormed(Apply(w, e))
    ensures SameRestore(w, Apply(w, e), k) <==> !Disturbs(w, Change(e), k)
  {
    RecordKeepsWellFormed(w, e.id, e.path);
    forall p | p != e.path ensures Given(Apply(w, e), k, p) == Given(w, k, p) { ChangeElsewhere(w, e, k, p); }
    if e.id >= k && !Has(w, e.id, e.path) {
      ChangeSaves(w, e, k);
    } else {
      ChangeSavesNothing(w, e, k);
    }
  }

  /** A rewind to `id` makes of a path what a restore from `id` gives, where `k` on saved nothing. */
  lemma RewindMovesPath(w: World, id: nat, k: nat, p: Path)
    requires AllWellFormed(w)
    ensures var v := After(w, RewindTo(id));
      && AllWellFormed(v)
      && (Given(v, k, p) != Given(w, k, p) <==>
            exists m: nat :: NoneHas(w, k, p) && IsOldest(w, id, p, m) && Saved(w, m, p) != Lookup(w.files, p))
  {
    var v := After(w, RewindTo(id));
    RestoreGives(w, id, p);
    SameRecordsGiveAlike(w, v, k, p);
    if n: nat :| n >= id && Has(w, n, p) {
      OldestExists(w, id, p, n);
      var m: nat :| IsOldest(w, id, p, m);
      OldestIsOne(w, id, p, m);
    } else {
      assert NoneHas(w, id, p);
    }
  }

  /** Exactly the disturbing steps move what a restore from `k` gives, in every store. */
  lemma StepMovesIff(w: World, s: Step, k: nat)
    requires AllWellFormed(w)
    ensures AllWellFormed(After(w, s)) && (SameRestore(w, After(w, s), k) <==> !Disturbs(w, s, k))
  {
    match s
    case Change(e) => ChangeMovesIff(w, e, k);
    case RewindTo(id) =>
      AfterIsWellFormed(w, s);
      forall p
        ensures Given(After(w, s), k, p) != Given(w, k, p) <==>
          exists m: nat :: NoneHas(w, k, p) && IsOldest(w, id, p, m) && Saved(w, m, p) != Lookup(w.files, p)
      {
        RewindMovesPath(w, id, k, p);
      }
  }

  // ---------------------------------------------------------------------------------------------
  // Whole runs
  // ---------------------------------------------------------------------------------------------

  lemma {:induction false} RunStepsIsWellFormed(w: World, steps: seq<Step>)
    requires AllWellFormed(w)
    ensures AllWellFormed(RunSteps(w, steps))
  {
    if steps != [] {
      RunStepsIsWellFormed(w, steps[..|steps| - 1]);
      AfterIsWellFormed(RunSteps(w, steps[..|steps| - 1]), steps[|steps| - 1]);
    }
  }

  function IdOf(s: Step): nat {
    if s.Change? then s.event.id else s.id
  }

  /** After a rewind the checkpoint numbers go on from the one rewound to. */
  ghost predicate Resumes(steps: seq<Step>) {
    forall i, j :: 0 <= i && j == i + 1 && j < |steps| && steps[j].Change? ==> IdOf(steps[i]) <= IdOf(steps[j])
  }

  /** A path that no checkpoint from `k` to `at` saved is as a restore from `k` would make it. */
  ghost predicate Settled(w: World, at: nat, k: nat)
    requires AllWellFormed(w)
  {
    forall p :: NoneBetween(w, k, at, p) ==> Given(w, k, p) == Lookup(w.files, p)
  }

  ghost predicate NoneBetween(w: World, k: nat, at: nat, p: Path) {
    forall n :: k <= n <= at ==> !Has(w, n, p)
  }

  lemma SettledIsUndisturbed(w: World, s: Step, at: nat, k: nat)
    requires AllWellFormed(w) && Settled(w, at, k) && IdOf(s) >= k && (s.Change? ==> IdOf(s) >= at)
    ensures !Disturbs(w, s, k)
  {
    if s.Change? {
      var e := s.event;
      RestoreGives(w, k, e.path);
      forall m: nat | IsOldest(w, k, e.path, m) && m > e.id ensures Saved(w, m, e.path) == Lookup(w.files, e.path) {
        assert NoneBetween(w, k, at, e.path);
      }
    }
  }

  lemma ChangeSettles(w: World, e: Event, at: nat, k: nat)
    requires AllWellFormed(w) && Settled(w, at, k) && e.id >= k && e.id >= at
    ensures AllWellFormed(Apply(w, e)) && Settled(Apply(w, e), e.id, k)
  {
    var v := Apply(w, e);
    RecordKeepsWellFormed(w, e.id, e.path);
    forall p | NoneBetween(v, k, e.id, p) ensures Given(v, k, p) == Lookup(v.files, p) {
      forall n: nat ensures Has(v, n, p) <==> Has(w, n, p) || (n == e.id && p == e.path) { RecordHas(w, e, n, p); }
      assert p != e.path by { assert !Has(v, e.id, p); }
      assert NoneBetween(w, k, at, p);
      ChangeElsewhere(w, e, k, p);
    }
  }

  lemma RewindSettles(w: World, id: nat, k: nat)
    requires AllWellFormed(w) && id >= k
    ensures AllWellFormed(After(w, RewindTo(id))) && Settled(After(w, RewindTo(id)), id, k)
  {
    var v := After(w, RewindTo(id));
    forall p | NoneBetween(v, k, id, p) ensures Given(v, k, p) == Lookup(v.files, p) {
      RestoreGives(w, id, p);
      RestoreGives(v, k, p);
      assert forall n: nat :: (Has(v, n, p) <==> Has(w, n, p)) && (k <= n <= id ==> !Has(v, n, p));
      if n: nat :| n >= id && Has(w, n, p) {
        OldestExists(w, id, p, n);
        var m: nat :| IsOldest(w, id, p, m);
        assert IsOldest(v, k, p, m);
      } else {
        assert NoneHas(w, id, p) && NoneHas(v, k, p);
      }
    }
  }

  lemma StepSettles(w: World, s: Step, at: nat, k: nat)
    requires AllWellFormed(w) && Settled(w, at, k) && IdOf(s) >= k && (s.Change? ==> IdOf(s) >= at)
    ensures AllWellFormed(After(w, s)) && Settled(After(w, s), IdOf(s), k) && SameRestore(w, After(w, s), k)
  {
    SettledIsUndisturbed(w, s, at, k);
    StepMovesIff(w, s, k);
    if s.Change? { ChangeSettles(w, s.event, at, k); } else { RewindSettles(w, s.id, k); }
  }

  ghost predicate AllFrom(steps: seq<Step>, k: nat) {
    forall i :: 0 <= i < |steps| ==> IdOf(steps[i]) >= k
  }

  lemma NothingFromIsSettled(w: World, k: nat)
    requires AllWellFormed(w) && forall id :: id in w.checkpoints ==> id < k
    ensures Settled(w, k, k) && forall p :: Given(w, k, p) == Lookup(w.files, p)
  {
    forall p ensures Given(w, k, p) == Lookup(w.files, p) {
      assert NoneHas(w, k, p);
      RestoreGives(w, k, p);
    }
  }

  lemma {:induction false} RunSettles(w: World, steps: seq<Step>, k: nat)
    requires AllWellFormed(w) && (forall id :: id in w.checkpoints ==> id < k) && AllFrom(steps, k) && Resumes(steps)
    ensures AllWellFormed(RunSteps(w, steps)) && SameRestore(w, RunSteps(w, steps), k)
    ensures Settled(RunSteps(w, steps), if steps == [] then k else IdOf(steps[|steps| - 1]), k)
  {
    if steps == [] {
      NothingFromIsSettled(w, k);
    } else {
      var init, s := steps[..|steps| - 1], steps[|steps| - 1];
      RunSettles(w, init, k);
      StepSettles(RunSteps(w, init), s, if init == [] then k else IdOf(init[|init| - 1]), k);
    }
  }

  /**
   Time travel with rewinds. From a moment at which every checkpoint is below `k`, whatever changes and
   rewinds led to it, and through any changes and rewinds from `k` on, each change going on from the
   checkpoint before it: a restore from `k` gives exactly the files of that moment.
   */
  lemma RewindsKeepTimeTravel(w: World, steps: seq<Step>, k: nat)
    requires AllWellFormed(w) && (forall id :: id in w.checkpoints ==> id < k) && AllFrom(steps, k) && Resumes(steps)
    ensures RestoreFrom(RunSteps(w, steps), k).Some?
    ensures RestoreFrom(RunSteps(w, steps), k).value.files == w.files
  {
    RunSettles(w, steps, k);
    NothingFromIsSettled(w, k);
    RestoreReportsExactly(RunSteps(w, steps), k);
    var files := RestoreFrom(RunSteps(w, steps), k).value.files;
    forall p ensures Lookup(files, p) == Lookup(w.files, p) {
      assert Lookup(files, p) == Given(RunSteps(w, steps), k, p) == Given(w, k, p);
    }
    SameLookups(files, w.files);
  }

  /** At every moment of the run a restore from `k` gives the same files. */
  ghost predicate AlwaysGives(w: World, steps: seq<Step>, k: nat)
    requires AllWellFormed(w)
  {
    forall n :: 0 <= n <= |steps| ==>
      AllWellFormed(RunSteps(w, steps[..n])) && SameRestore(w, RunSteps(w, steps[..n]), k)
  }

  ghost predicate NeverDisturbs(w: World, steps: seq<Step>, k: nat)
    requires AllWellFormed(w)
  {
    forall n :: 0 <= n < |steps| ==>
      AllWellFormed(RunSteps(w, steps[..n])) && !Disturbs(RunSteps(w, steps[..n]), steps[n], k)
  }

  lemma NextMoment(w: World, steps: seq<Step>, n: nat, k: nat)
    requires AllWellFormed(w) && n < |steps|
    ensures AllWellFormed(RunSteps(w, steps[..n])) && AllWellFormed(RunSteps(w, steps[..n + 1]))
    ensures SameRestore(RunSteps(w, steps[..n]), RunSteps(w, steps[..n + 1]), k) <==>
      !Disturbs(RunSteps(w, steps[..n]), steps[n], k)
  {
    assert steps[..n + 1][..n] == steps[..n];
    RunStepsIsWellFormed(w, steps[..n]);
    StepMovesIff(RunSteps(w, steps[..n]), steps[n], k);
  }

  lemma {:induction false} GivesUpTo(w: World, steps: seq<Step>, n: nat, k: nat)
    requires AllWellFormed(w) && NeverDisturbs(w, steps, k) && n <= |steps|
    ensures AllWellFormed(RunSteps(w, steps[..n])) && SameRestore(w, RunSteps(w, steps[..n]), k)
  {
    if n > 0 {
      GivesUpTo(w, steps, n - 1, k);
      NextMoment(w, steps, n - 1, k);
      forall p ensures Given(RunSteps(w, steps[..n]), k, p) == Given(w, k, p) {
        assert Given(RunSteps(w, steps[..n - 1]), k, p) == Given(w, k, p);
      }
    }
  }

  /** From any store on, a restore from `k` gives the same files throughout a run exactly when no step disturbs it. */
  lemma RestorePointHoldsIff(w: World, steps: seq<Step>, k: nat)
    requires AllWellFormed(w)
    ensures AlwaysGives(w, steps, k) <==> NeverDisturbs(w, steps, k)
  {
    if NeverDisturbs(w, steps, k) {
      forall n | 0 <= n <= |steps|
        ensures AllWellFormed(RunSteps(w, steps[..n])) && SameRestore(w, RunSteps(w, steps[..n]), k)
      {
        GivesUpTo(w, steps, n, k);
      }
    }
    if AlwaysGives(w, steps, k) {
      forall n | 0 <= n < |steps|
        ensures AllWellFormed(RunSteps(w, steps[..n])) && !Disturbs(RunSteps(w, steps[..n]), steps[n], k)
      {
        var here, next := RunSteps(w, steps[..n]), RunSteps(w, steps[..n + 1]);
        assert SameRestore(w, here, k) && SameRestore(w, next, k);
        forall p ensures Given(next, k, p) == Given(here, k, p) {
          assert Given(here, k, p) == Given(w, k, p) == Given(next, k, p);
        }
        NextMoment(w, steps, n, k);
      }
    }
  }

  // ---------------------------------------------------------------------------------------------
  // An abandoned branch
  // ---------------------------------------------------------------------------------------------

  /** Two checkpoints change a file, a rewind undoes both, and both change it anew. */
  function Branching(p: Path, a: Content, b: Content, c: Content, d: Content): seq<Step> {
    [Change(Event(1, p, Write(a)))] + [Change(Event(2, p, Write(b)))] + [RewindTo(1)] +
    [Change(Event(1, p, Write(c)))] + [Change(Event(2, p, Write(d)))]
  }

  lemma RunStepsOneMore(w: World, steps: seq<Step>, s: Step)
    ensures RunSteps(w, steps + [s]) == After(RunSteps(w, steps), s)
  {
    assert (steps + [s])[..|steps|] == steps;
  }

  /** What a checkpoint saved of a path stays saved. */
  lemma SavedStays(w: World, s: Step, id: nat, p: Path)
    requires AllWellFormed(w) && Has(w, id, p)
    ensures AllWellFormed(After(w, s)) && Has(After(w, s), id, p) && Saved(After(w, s), id, p) == Saved(w, id, p)
  {
    AfterIsWellFormed(w, s);
    if s.Change? { RecordHas(w, s.event, id, p); }
  }

  /** Saving a path anew moves no restore from a checkpoint that saved it. */
  lemma StaleIsGiven(w: World, s1: Step, s2: Step, s3: Step, id: nat, p: Path)
    requires AllWellFormed(w) && Has(w, id, p)
    ensures var v := After(After(After(w, s1), s2), s3); AllWellFormed(v) && Given(v, id, p) == Saved(w, id, p)
  {
    SavedStays(w, s1, id, p);
    SavedStays(After(w, s1), s2, id, p);
    SavedStays(After(After(w, s1), s2), s3, id, p);
    var v := After(After(After(w, s1), s2), s3);
    assert IsOldest(v, id, p, id);
    RestoreGives(v, id, p);
  }

  lemma SavedBefore(w: World, p: Path, a: Content, b: Content)
    requires w.checkpoints == map[]
    ensures var v := After(After(w, Change(Event(1, p, Write(a)))), Change(Event(2, p, Write(b))));
      AllWellFormed(v) && Has(v, 2, p) && Saved(v, 2, p) == Some(a)
  {
    var v := After(w, Change(Event(1, p, Write(a))));
    AfterIsWellFormed(w, Change(Event(1, p, Write(a))));
    RecordHas(v, Event(2, p, Write(b)), 2, p);
  }

  lemma RunOfFive(w: World, a: Step, b: Step, c: Step, d: Step, e: Step)
    ensures RunSteps(w, [a] + [b] + [c] + [d]) == After(After(After(After(w, a), b), c), d)
    ensures RunSteps(w, [a] + [b] + [c] + [d] + [e]) == After(RunSteps(w, [a] + [b] + [c] + [d]), e)
  {
    var none: seq<Step> := [];
    assert none + [a] == [a];
    RunStepsOneMore(w, none, a);
    RunStepsOneMore(w, [a], b);
    RunStepsOneMore(w, [a] + [b], c);
    RunStepsOneMore(w, [a] + [b] + [c], d);
    RunStepsOneMore(w, [a] + [b] + [c] + [d], e);
  }

  /** Then a restore from 2 gives what the abandoned branch saved, not what the file held before its change. */
  lemma AbandonedBranchComesBack(w: World, p: Path, a: Content, b: Content, c: Content, d: Content)
    requires w.checkpoints == map[]
    ensures var steps := Branching(p, a, b, c, d);
      && Lookup(RunSteps(w, steps[..4]).files, p) == Some(c)
      && AllWellFormed(RunSteps(w, steps)) && Given(RunSteps(w, steps), 2, p) == Some(a)
  {
    var s1, s2, s3 := Change(Event(1, p, Write(a))), Change(Event(2, p, Write(b))), RewindTo(1);
    var s4, s5 := Change(Event(1, p, Write(c))), Change(Event(2, p, Write(d)));
    var steps := Branching(p, a, b, c, d);
    assert steps == [s1] + [s2] + [s3] + [s4] + [s5] && steps[..4] == [s1] + [s2] + [s3] + [s4];
    RunOfFive(w, s1, s2, s3, s4, s5);
    SavedBefore(w, p, a, b);
    StaleIsGiven(After(After(w, s1), s2), s3, s4, s5, 2, p);
  }

}
