/** The restore-point store as the tool host drives it: manifests appended to and files written in place. */
module RestoreStore {

  import opened Basics
  import opened RestorePoints

  /** The newest of a non-empty set of checkpoint numbers. */
  method Newest(s: set<nat>) returns (m: nat)
    requires s != {}
    ensures IsNewest(s, m)
  {
    m :| m in s;
    var rest := s - {m};
    while rest != {}
      invariant m in s && rest <= s
      invariant forall n :: n in s ==> n <= m || n in rest
      decreases |rest|
    {
      var n :| n in rest;
      if n > m { m := n; }
      rest := rest - {n};
    }
  }

  /** The directory numbers sorted in descending order. */
  method SortNewestFirst(s: set<nat>) returns (ids: seq<nat>)
    ensures ids == NewestFirst(s)
  {
    ids := [];
    var rest := s;
    while rest != {}
      invariant ids + NewestFirst(rest) == NewestFirst(s)
      decreases |rest|
    {
      var m := Newest(rest);
      assert forall n :: IsNewest(rest, n) ==> n == m;
      assert NewestFirst(rest) == [m] + NewestFirst(rest - {m});
      ids := ids + [m];
      rest := rest - {m};
    }
  }

  datatype Report = Report(restored: set<Path>, deleted: set<Path>)

  class Store {
    var files: Files
    var checkpoints: map<nat, Checkpoint>

    ghost function Now(): World
      reads this
    {
      World(files, checkpoints)
    }

    constructor (files: Files)
      ensures Now() == World(files, map[])
    {
      this.files := files;
      checkpoints := map[];
    }

    /** Saves the state of `path` once for this checkpoint. */
    method RecordBeforeChange(id: nat, path: Path)
      modifies this`checkpoints
      ensures Now() == Record(old(Now()), id, path)
    {
      var c := if id in checkpoints then checkpoints[id] else Checkpoint([], map[]);
      var i := 0;
      while i < |c.entries|
        invariant i <= |c.entries|
        invariant forall j :: 0 <= j < i ==> c.entries[j].path != path
      {
        if c.entries[i].path == path {
          checkpoints := checkpoints[id := c];
          return;
        }
        i := i + 1;
      }
      checkpoints := checkpoints[id := AddEntry(c, path, if path in files then Some(files[path]) else None)];
    }

    /** Puts back one checkpoint's entries in manifest order; fails when a backup cannot be read. */
    method PutBackCheckpoint(c: Checkpoint, states: map<Path, bool>) returns (ok: bool, finalStates: map<Path, bool>)
      modifies this`files
      ensures ok <==> PutBackTo(Rewind(old(files), states), c, |c.entries|).Some?
      ensures ok ==> PutBackTo(Rewind(old(files), states), c, |c.entries|) == Some(Rewind(files, finalStates))
    {
      finalStates := states;
      ghost var start := Rewind(files, states);
      var i := 0;
      while i < |c.entries|
        invariant i <= |c.entries|
        invariant PutBackTo(start, c, i) == Some(Rewind(files, finalStates))
      {
        var e := c.entries[i];
        if e.existed {
          if e.backup.None? || e.backup.value !in c.backups {
            StopsAt(start, c, i + 1, |c.entries|);
            return false, finalStates;
          }
          files := files[e.path := c.backups[e.backup.value]];
        } else {
          files := files - {e.path};
        }
        finalStates := finalStates[e.path := e.existed];
        i := i + 1;
      }
      ok := true;
    }

    static lemma {:induction false} StopsAt(r: Rewind, c: Checkpoint, i: nat, n: nat)
      requires i <= n <= |c.entries| && PutBackTo(r, c, i).None?
      ensures PutBackTo(r, c, n).None?
    {
      if i < n { StopsAt(r, c, i, n - 1); }
    }

    /** Restores paths changed by this or any later checkpoint, newest first, and reports them. */
    method RestoreFromCheckpoint(id: nat) returns (report: Option<Report>)
      modifies this`files
      ensures report.Some? <==> RestoreFrom(old(Now()), id).Some?
      ensures report.Some? ==>
        var r := RestoreFrom(old(Now()), id).value;
        Now() == old(Now()).(files := r.files) && report.value == Report(Restored(r), Deleted(r))
    {
      var chosen := set n | n in checkpoints && n >= id;
      var ids := SortNewestFirst(chosen);
      var states := map[];
      var i := 0;
      while i < |ids|
        invariant i <= |ids| && forall j :: 0 <= j < |ids| ==> ids[j] in checkpoints
        invariant PutBackAll(Rewind(files, states), checkpoints, ids[i..]) == RestoreFrom(old(Now()), id)
      {
        assert ids[i..][1..] == ids[i + 1..];
        var ok;
        ok, states := PutBackCheckpoint(checkpoints[ids[i]], states);
        if !ok { return None; }
        i := i + 1;
      }
      report := Some(Report(set p | p in states && states[p], set p | p in states && !states[p]));
    }
  }

}
