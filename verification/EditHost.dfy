/** The edit tool as the tool host runs it, over the restore-point store of `RestoreStore`. */
module EditHost {

  import opened Basics
  import opened RestorePoints
  import opened RestoreStore
  import opened FileMutations

  class Host<!S> {
    const h: Hashline<S>
    const disk: Store
    var store: S

    constructor (h: Hashline<S>, disk: Store, store: S)
      ensures this.h == h && this.disk == disk && this.store == store
    {
      this.h, this.disk, this.store := h, disk, store;
    }

    /** Applies every section to its file in memory; writes nothing. */
    method Stage(sections: seq<Section>) returns (staged: Option<(seq<StagedEdit>, S)>)
      ensures staged == StageTo(h, disk.files, store, sections, |sections|)
    {
      var edits, transaction := [], h.clear(store);
      var i := 0;
      while i < |sections|
        invariant i <= |sections|
        invariant StageTo(h, disk.files, store, sections, i) == Some((edits, transaction))
      {
        var next := StageOne(h, disk.files, store, transaction, sections[i]);
        if next.None? {
          StagingStops(h, disk.files, store, sections, i + 1, |sections|);
          return None;
        }
        edits, transaction := edits + [next.value.0], next.value.1;
        i := i + 1;
      }
      staged := Some((edits, transaction));
    }

    static lemma {:induction false} StagingStops(h: Hashline<S>, files: Files, store: S, sections: seq<Section>,
        i: nat, n: nat)
      requires i <= n <= |sections| && StageTo(h, files, store, sections, i).None?
      ensures StageTo(h, files, store, sections, n).None?
    {
      if i < n { StagingStops(h, files, store, sections, i, n - 1); }
    }

    /** Records both paths of every edit under checkpoint `id`. */
    method Checkpoint(id: nat, staged: seq<StagedEdit>)
      modifies disk`checkpoints
      ensures disk.Now() == CheckpointTo(old(disk.Now()), id, staged, |staged|)
    {
      var i := 0;
      while i < |staged|
        invariant i <= |staged|
        invariant disk.Now() == CheckpointTo(old(disk.Now()), id, staged, i)
      {
        disk.RecordBeforeChange(id, staged[i].path);
        disk.RecordBeforeChange(id, ResultPath(staged[i]));
        i := i + 1;
      }
    }

    /** Writes, moves and removes in staged order; stops at the first error, after `faults` operations at the latest. */
    method WriteEdits(staged: seq<StagedEdit>, faults: nat) returns (ok: bool)
      modifies disk`files
      ensures var p := WriteTo(Writing(old(disk.files), faults, true), staged, |staged|);
        disk.files == p.files && ok == p.ok
    {
      ghost var start := Writing(disk.files, faults, true);
      var left := faults;
      ok := true;
      var i := 0;
      while i < |staged| && ok
        invariant i <= |staged|
        invariant WriteTo(start, staged, i) == Writing(disk.files, left, ok)
      {
        var edit := staged[i];
        if edit.remove {
          if left > 0 && edit.path in disk.files {
            disk.files, left := disk.files - {edit.path}, left - 1;
          } else {
            ok := false;
          }
        } else if left == 0 {
          ok := false;
        } else {
          disk.files, left := disk.files[ResultPath(edit) := edit.after], left - 1;
          if ResultPath(edit) != edit.path {
            if left > 0 && edit.path in disk.files {
              disk.files, left := disk.files - {edit.path}, left - 1;
            } else {
              ok := false;
            }
          }
        }
        i := i + 1;
      }
      WritingStops(start, staged, i, |staged|);
    }

    static lemma {:induction false} WritingStops(p: Writing, staged: seq<StagedEdit>, i: nat, n: nat)
      requires i <= n <= |staged|
      ensures !WriteTo(p, staged, i).ok ==> WriteTo(p, staged, n) == WriteTo(p, staged, i)
    {
      if i < n { WritingStops(p, staged, i, n - 1); }
    }

    /**
     One edit under an optional checkpoint. A patch that conflicts with itself or cannot be staged
     changes no file, no checkpoint and not the edit store; a failed write loop leaves the edit store
     alone, and what it did to the files is the checkpointed edit that a restore undoes.
     */
    method Edit(sections: seq<Section>, checkpoint: Option<nat>, faults: nat)
        returns (ok: bool, ghost merged: seq<Section>)
      modifies this`store, disk
      ensures Conflicting(sections) ==> !ok && disk.Now() == old(disk.Now()) && store == old(store)
      ensures !Conflicting(sections) ==> Coalesces(sections, merged)
      ensures !Conflicting(sections) ==>
        match StageTo(h, old(disk.files), old(store), merged, |merged|)
        case None => !ok && disk.Now() == old(disk.Now()) && store == old(store)
        case Some(staged) =>
          && ok == WriteTo(Writing(old(disk.files), faults, true), staged.0, |staged.0|).ok
          && store == (if ok then h.publish(staged.1, staged.0) else old(store))
          && (if checkpoint.Some?
              then disk.Now() == AfterEdit(old(disk.Now()), checkpoint.value, staged.0, faults)
              else disk.Now() == old(disk.Now()).(files :=
                WriteTo(Writing(old(disk.files), faults, true), staged.0, |staged.0|).files))
    {
      ok, merged := false, [];
      var coalesced := Coalesce(sections);
      if coalesced.None? { return; }
      merged := coalesced.value;
      var staged := Stage(coalesced.value);
      if staged.None? { return; }
      if checkpoint.Some? {
        Checkpoint(checkpoint.value, staged.value.0);
        CheckpointKeepsFiles(old(disk.Now()), checkpoint.value, staged.value.0, |staged.value.0|);
      }
      ok := WriteEdits(staged.value.0, faults);
      if ok { store := h.publish(staged.value.1, staged.value.0); }
    }

    static lemma {:induction false} CheckpointKeepsFiles(w: World, id: nat, staged: seq<StagedEdit>, n: nat)
      requires n <= |staged|
      ensures CheckpointTo(w, id, staged, n).files == w.files
    {
      if n > 0 { CheckpointKeepsFiles(w, id, staged, n - 1); }
    }
  }

}
