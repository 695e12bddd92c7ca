/**
 The multi-file edit tool (crates/roost-agent-tools/src/file_mutations.rs): sections are coalesced per
 file, staged against the current files, checkpointed, and only then written. The line-edit language
 itself is a parameter.
 */
module FileMutations {

  import opened Basics
  import opened RestorePoints
  import opened RestorePointsProofs

  type Tag = string

  datatype Operation = RemoveFile | MoveTo(to: Path) | Lines(edit: nat)

  /** One section of a patch, its path already resolved. */
  datatype Section = Section(path: Path, tag: Tag, operations: seq<Operation>)

  // ---------------------------------------------------------------------------------------------
  // Coalescing
  // ---------------------------------------------------------------------------------------------

  predicate DistinctPaths(sections: seq<Section>) {
    forall i, j :: 0 <= i < j < |sections| ==> sections[i].path != sections[j].path
  }

  /** All operations the sections hold for `path`, in patch order. */
  function OperationsFor(sections: seq<Section>, path: Path): seq<Operation> {
    if sections == [] then []
    else
      var last := sections[|sections| - 1];
      OperationsFor(sections[..|sections| - 1], path) + (if last.path == path then last.operations else [])
  }

  /** Two sections of one file carry different snapshot tags. */
  ghost predicate Conflicting(sections: seq<Section>) {
    exists i, j :: 0 <= i < j < |sections| && sections[i].path == sections[j].path && sections[i].tag != sections[j].tag
  }

  /** The files a patch names, in order of first mention. */
  function FirstMentions(sections: seq<Section>): seq<Path> {
    if sections == [] then []
    else
      var before, path := FirstMentions(sections[..|sections| - 1]), sections[|sections| - 1].path;
      if path in before then before else before + [path]
  }

  ghost predicate Names(sections: seq<Section>, path: Path, tag: Tag) {
    exists i :: 0 <= i < |sections| && sections[i].path == path && sections[i].tag == tag
  }

  /** `merged` is `sections` with one section per file. */
  ghost predicate Coalesces(sections: seq<Section>, merged: seq<Section>) {
    && DistinctPaths(merged)
    && FirstMentions(sections) == seq(|merged|, k requires 0 <= k < |merged| => merged[k].path)
    && (forall p, t :: Names(merged, p, t) <==> Names(sections, p, t))
    && (forall p :: OperationsFor(merged, p) == OperationsFor(sections, p))
  }

  lemma {:induction false} NoOperations(sections: seq<Section>, path: Path)
    requires forall i :: 0 <= i < |sections| ==> sections[i].path != path
    ensures OperationsFor(sections, path) == []
  {
    if sections != [] { NoOperations(sections[..|sections| - 1], path); }
  }

  /** Extending one section's operations extends what the list holds for its file, and for no other. */
  lemma {:induction false} ExtendOne(sections: seq<Section>, k: nat, more: seq<Operation>, path: Path)
    requires DistinctPaths(sections) && k < |sections|
    ensures var extended := sections[k := sections[k].(operations := sections[k].operations + more)];
      OperationsFor(extended, path) == OperationsFor(sections, path) + (if sections[k].path == path then more else [])
  {
    var extended := sections[k := sections[k].(operations := sections[k].operations + more)];
    var n := |sections| - 1;
    if k == n {
      assert extended[..n] == sections[..n];
    } else {
      ExtendOne(sections[..n], k, more, path);
      assert extended[..n] == sections[..n][k := extended[k]];
      assert sections[k].path != sections[n].path;
    }
  }

  /** One section per file, operations appended in patch order; nothing when two tags of a file differ. */
  method Coalesce(sections: seq<Section>) returns (result: Option<seq<Section>>)
    ensures result.None? <==> Conflicting(sections)
    ensures result.Some? ==> Coalesces(sections, result.value)
  {
    var merged: seq<Section> := [];
    var indexes: map<Path, nat> := map[];
    var i := 0;
    while i < |sections|
      invariant i <= |sections|
      invariant forall p :: p in indexes ==> indexes[p] < |merged| && merged[indexes[p]].path == p
      invariant forall k :: 0 <= k < |merged| ==> merged[k].path in indexes && indexes[merged[k].path] == k
      invariant Coalesces(sections[..i], merged)
      invariant !Conflicting(sections[..i])
    {
      var section := sections[i];
      assert sections[..i + 1][..i] == sections[..i];
      if section.path in indexes {
        var k := indexes[section.path];
        if merged[k].tag != section.tag {
          TagsConflict(sections, merged, i, k);
          return None;
        }
        MergeKeeps(sections[..i], merged, section, k);
        merged := merged[k := merged[k].(operations := merged[k].operations + section.operations)];
      } else {
        AppendKeeps(sections[..i], merged, section);
        indexes := indexes[section.path := |merged|];
        merged := merged + [section];
      }
      assert sections[..i + 1] == sections[..i] + [section];
      i := i + 1;
    }
    assert sections[..i] == sections;
    result := Some(merged);
  }

  lemma TagsConflict(sections: seq<Section>, merged: seq<Section>, i: nat, k: nat)
    requires i < |sections| && k < |merged| && Coalesces(sections[..i], merged)
    requires merged[k].path == sections[i].path && merged[k].tag != sections[i].tag
    ensures Conflicting(sections)
  {
    assert Names(merged, sections[i].path, merged[k].tag);
    var j :| 0 <= j < i && sections[..i][j].path == sections[i].path && sections[..i][j].tag == merged[k].tag;
    assert sections[j].path == sections[i].path && sections[j].tag != sections[i].tag;
  }

  lemma AppendKeeps(sections: seq<Section>, merged: seq<Section>, section: Section)
    requires Coalesces(sections, merged) && !Conflicting(sections)
    requires forall k :: 0 <= k < |merged| ==> merged[k].path != section.path
    ensures Coalesces(sections + [section], merged + [section]) && !Conflicting(sections + [section])
  {
    var s', m' := sections + [section], merged + [section];
    assert s'[..|sections|] == sections;
    forall p ensures OperationsFor(m', p) == OperationsFor(s', p) {
      assert s'[..|sections|] == sections && m'[..|merged|] == merged;
    }
    NamesOfAppend(sections, section);
    NamesOfAppend(merged, section);
    forall i, j | 0 <= i < j < |s'| && s'[i].path == s'[j].path ensures s'[i].tag == s'[j].tag {
      if j == |sections| {
        assert Names(sections, s'[i].path, s'[i].tag);
      } else {
        assert sections[i].path == sections[j].path;
      }
    }
  }

  lemma NamesOfAppend(sections: seq<Section>, section: Section)
    ensures forall p, t :: Names(sections + [section], p, t) <==>
      Names(sections, p, t) || (p == section.path && t == section.tag)
  {
    var s' := sections + [section];
    forall p, t ensures Names(s', p, t) <==> Names(sections, p, t) || (p == section.path && t == section.tag) {
      if Names(sections, p, t) {
        var i :| 0 <= i < |sections| && sections[i].path == p && sections[i].tag == t;
        assert s'[i].path == p && s'[i].tag == t;
      }
      assert s'[|sections|] == section;
    }
  }

  lemma MergeKeeps(sections: seq<Section>, merged: seq<Section>, section: Section, k: nat)
    requires Coalesces(sections, merged) && !Conflicting(sections)
    requires k < |merged| && merged[k].path == section.path && merged[k].tag == section.tag
    ensures Coalesces(sections + [section],
      merged[k := merged[k].(operations := merged[k].operations + section.operations)])
    ensures !Conflicting(sections + [section])
  {
    var s' := sections + [section];
    var m' := merged[k := merged[k].(operations := merged[k].operations + section.operations)];
    assert s'[..|sections|] == sections;
    assert FirstMentions(sections)[k] == section.path;
    forall p ensures OperationsFor(m', p) == OperationsFor(s', p) {
      assert s'[..|sections|] == sections;
      ExtendOne(merged, k, section.operations, p);
    }
    NamesOfAppend(sections, section);
    forall p, t ensures Names(m', p, t) <==> Names(s', p, t) {
      assert Names(merged, section.path, section.tag);
      if Names(merged, p, t) {
        var i :| 0 <= i < |merged| && merged[i].path == p && merged[i].tag == t;
        assert m'[i].path == p && m'[i].tag == t;
      }
    }
    forall i, j | 0 <= i < j < |s'| && s'[i].path == s'[j].path ensures s'[i].tag == s'[j].tag {
      if j == |sections| {
        assert Names(sections, s'[i].path, s'[i].tag);
        var h :| 0 <= h < |merged| && merged[h].path == s'[i].path && merged[h].tag == s'[i].tag;
        assert h == k;
      } else {
        assert sections[i].path == sections[j].path;
      }
    }
  }

  // ---------------------------------------------------------------------------------------------
  // Staging
  // ---------------------------------------------------------------------------------------------

  datatype StagedEdit = StagedEdit(path: Path, after: Content, remove: bool, moveTo: Option<Path>)

  /**
   The line-edit language over an edit store: how a file is read as text, whether a tag names a
   snapshot the store holds of the path and the text still is, whether the touched lines were shown,
   and what the operations make of the text.
   */
  datatype Hashline<!S> = Hashline(
    decode: Content -> Option<Content>,
    recognized: (S, Path, Tag) -> bool,
    current: (Content, Tag) -> bool,
    seen: (S, Section) -> bool,
    apply: (Content, seq<Operation>, S) -> Option<(Content, S)>,
    clear: S -> S,
    publish: (S, seq<StagedEdit>) -> S)

  function FirstMove(operations: seq<Operation>): Option<Path> {
    if operations == [] then None
    else if operations[0].MoveTo? then Some(operations[0].to)
    else FirstMove(operations[1..])
  }

  function StageOne<S>(h: Hashline<S>, files: Files, store: S, transaction: S, section: Section)
      : Option<(StagedEdit, S)>
  {
    if section.path !in files then None
    else match h.decode(files[section.path])
      case None => None
      case Some(before) =>
        if !h.recognized(store, section.path, section.tag) || !h.current(before, section.tag) ||
          !h.seen(store, section) then None
        else match h.apply(before, section.operations, transaction)
          case None => None
          case Some(applied) =>
            Some((StagedEdit(section.path, applied.0, RemoveFile in section.operations, FirstMove(section.operations)),
              applied.1))
  }

  /** The first `n` sections, each applied to its file as it is on disk now. */
  function StageTo<S>(h: Hashline<S>, files: Files, store: S, sections: seq<Section>, n: nat)
      : Option<(seq<StagedEdit>, S)>
    requires n <= |sections|
  {
    if n == 0 then Some(([], h.clear(store)))
    else match StageTo(h, files, store, sections, n - 1)
      case None => None
      case Some(staged) =>
        match StageOne(h, files, store, staged.1, sections[n - 1])
        case None => None
        case Some(next) => Some((staged.0 + [next.0], next.1))
  }

  // ---------------------------------------------------------------------------------------------
  // Checkpointing and writing
  // ---------------------------------------------------------------------------------------------

  function ResultPath(edit: StagedEdit): Path {
    if edit.moveTo.Some? then edit.moveTo.value else edit.path
  }

  /** Both paths of each of the first `n` edits are recorded before any file is written. */
  function CheckpointTo(w: World, id: nat, staged: seq<StagedEdit>, n: nat): World
    requires n <= |staged|
  {
    if n == 0 then w
    else
      var edit := staged[n - 1];
      Record(Record(CheckpointTo(w, id, staged, n - 1), id, edit.path), id, ResultPath(edit))
  }

  /** Writing in progress: `left` file operations succeed before one fails with an I/O error. */
  datatype Writing = Writing(files: Files, left: nat, ok: bool)

  function RemoveStep(p: Writing, path: Path): Writing {
    if !p.ok then p
    else if p.left == 0 || path !in p.files then p.(ok := false)
    else Writing(p.files - {path}, p.left - 1, true)
  }

  function WriteStep(p: Writing, path: Path, content: Content): Writing {
    if !p.ok then p
    else if p.left == 0 then p.(ok := false)
    else Writing(p.files[path := content], p.left - 1, true)
  }

  function WriteOne(p: Writing, edit: StagedEdit): Writing {
    if edit.remove then RemoveStep(p, edit.path)
    else
      var written := WriteStep(p, ResultPath(edit), edit.after);
      if ResultPath(edit) == edit.path then written else RemoveStep(written, edit.path)
  }

  function WriteTo(p: Writing, staged: seq<StagedEdit>, n: nat): Writing
    requires n <= |staged|
  {
    if n == 0 then p else WriteOne(WriteTo(p, staged, n - 1), staged[n - 1])
  }

  // ---------------------------------------------------------------------------------------------
  // An edit is a run of recorded changes
  // ---------------------------------------------------------------------------------------------

  ghost predicate InCheckpoint(events: seq<Event>, id: nat) {
    forall i :: 0 <= i < |events| ==> events[i].id == id
  }

  lemma RunOneMore(w: World, events: seq<Event>, e: Event)
    ensures Run(w, events + [e]) == Apply(Run(w, events), e)
  {
    assert (events + [e])[..|events|] == events;
  }

  ghost predicate IsRecorded(w: World, id: nat, path: Path) {
    id in w.checkpoints && Records(w.checkpoints[id], path)
  }

  lemma RecordKeepsRecorded(w: World, id: nat, path: Path, other: Path)
    ensures IsRecorded(Record(w, id, path), id, path)
    ensures IsRecorded(w, id, other) ==> IsRecorded(Record(w, id, path), id, other)
  {
    var c := CheckpointAt(w, id);
    if !Records(c, path) {
      var c' := AddEntry(c, path, Lookup(w.files, path));
      assert c'.entries[|c.entries|].path == path;
      if IsRecorded(w, id, other) {
        var i :| 0 <= i < |c.entries| && c.entries[i].path == other;
        assert c'.entries[i].path == other;
      }
    }
  }

  /** Every source and destination is recorded before the first mutation. */
  lemma {:induction false} CheckpointRecords(w: World, id: nat, staged: seq<StagedEdit>, n: nat, i: nat)
    requires i < n <= |staged|
    ensures IsRecorded(CheckpointTo(w, id, staged, n), id, staged[i].path)
    ensures IsRecorded(CheckpointTo(w, id, staged, n), id, ResultPath(staged[i]))
  {
    var before := CheckpointTo(w, id, staged, n - 1);
    var edit := staged[n - 1];
    var middle := Record(before, id, edit.path);
    if i < n - 1 { CheckpointRecords(w, id, staged, n - 1, i); }
    RecordKeepsRecorded(before, id, edit.path, staged[i].path);
    RecordKeepsRecorded(before, id, edit.path, ResultPath(staged[i]));
    RecordKeepsRecorded(middle, id, ResultPath(edit), staged[i].path);
    RecordKeepsRecorded(middle, id, ResultPath(edit), ResultPath(staged[i]));
  }

  lemma RecordIsAnEvent(w: World, id: nat, events: seq<Event>, path: Path) returns (more: seq<Event>)
    requires InCheckpoint(events, id)
    ensures InCheckpoint(more, id) && Run(w, more) == Record(Run(w, events), id, path)
  {
    more := events + [Event(id, path, Keep)];
    RunOneMore(w, events, Event(id, path, Keep));
  }

  lemma {:induction false} CheckpointIsARun(w: World, id: nat, staged: seq<StagedEdit>, n: nat)
      returns (events: seq<Event>)
    requires n <= |staged|
    ensures InCheckpoint(events, id) && Run(w, events) == CheckpointTo(w, id, staged, n)
  {
    events := [];
    if n > 0 {
      var before := CheckpointIsARun(w, id, staged, n - 1);
      events := EditIsRecorded(w, id, before, staged[n - 1]);
    }
  }

  lemma EditIsRecorded(w: World, id: nat, before: seq<Event>, edit: StagedEdit) returns (events: seq<Event>)
    requires InCheckpoint(before, id)
    ensures InCheckpoint(events, id)
    ensures Run(w, events) == Record(Record(Run(w, before), id, edit.path), id, ResultPath(edit))
  {
    events := RecordIsAnEvent(w, id, before, edit.path);
    events := RecordIsAnEvent(w, id, events, ResultPath(edit));
  }

  /** A change to a recorded path is an event of the run, whose recording half does nothing. */
  lemma RecordedChange(w: World, id: nat, path: Path, change: Change)
    requires IsRecorded(w, id, path)
    ensures Apply(w, Event(id, path, change)) == w.(files := Changed(w.files, path, change))
  {
    RecordIsIdempotent(w, id, path);
  }

  lemma {:induction false} WritingIsARun(w: World, id: nat, p: Writing, staged: seq<StagedEdit>, n: nat)
      returns (events: seq<Event>)
    requires n <= |staged| && p.files == w.files
    requires forall i :: 0 <= i < |staged| ==>
      IsRecorded(w, id, staged[i].path) && IsRecorded(w, id, ResultPath(staged[i]))
    ensures InCheckpoint(events, id) && Run(w, events) == w.(files := WriteTo(p, staged, n).files)
  {
    events := [];
    if n > 0 {
      events := WritingIsARun(w, id, p, staged, n - 1);
      var before := WriteTo(p, staged, n - 1);
      var edit := staged[n - 1];
      if edit.remove {
        events := RemoveIsAnEvent(w, id, events, before, edit.path);
      } else {
        events := WriteIsAnEvent(w, id, events, before, ResultPath(edit), edit.after);
        if ResultPath(edit) != edit.path {
          events := RemoveIsAnEvent(w, id, events, WriteStep(before, ResultPath(edit), edit.after), edit.path);
        }
      }
    }
  }

  lemma RemoveIsAnEvent(w: World, id: nat, events: seq<Event>, p: Writing, path: Path) returns (more: seq<Event>)
    requires InCheckpoint(events, id) && Run(w, events) == w.(files := p.files) && IsRecorded(w, id, path)
    ensures InCheckpoint(more, id) && Run(w, more) == w.(files := RemoveStep(p, path).files)
  {
    more := events;
    if RemoveStep(p, path) != p && p.left > 0 && path in p.files {
      more := events + [Event(id, path, Remove)];
      RunOneMore(w, events, Event(id, path, Remove));
      RecordedChange(w.(files := p.files), id, path, Remove);
    }
  }

  lemma WriteIsAnEvent(w: World, id: nat, events: seq<Event>, p: Writing, path: Path, content: Content)
      returns (more: seq<Event>)
    requires InCheckpoint(events, id) && Run(w, events) == w.(files := p.files) && IsRecorded(w, id, path)
    ensures InCheckpoint(more, id) && Run(w, more) == w.(files := WriteStep(p, path, content).files)
  {
    more := events;
    if p.ok && p.left > 0 {
      more := events + [Event(id, path, Write(content))];
      RunOneMore(w, events, Event(id, path, Write(content)));
      RecordedChange(w.(files := p.files), id, path, Write(content));
    }
  }

  lemma {:induction false} RunAppend(w: World, a: seq<Event>, b: seq<Event>)
    ensures Run(w, a + b) == Run(Run(w, a), b)
    decreases |b|
  {
    if b == [] {
      assert a + b == a;
    } else {
      RunAppend(w, a, b[..|b| - 1]);
      assert (a + b)[..|a + b| - 1] == a + b[..|b| - 1];
    }
  }

  /** The file system after an edit whose write loop fails once `faults` file operations have succeeded. */
  function AfterEdit(w: World, id: nat, staged: seq<StagedEdit>, faults: nat): World {
    var recorded := CheckpointTo(w, id, staged, |staged|);
    recorded.(files := WriteTo(Writing(recorded.files, faults, true), staged, |staged|).files)
  }

  lemma EditIsARun(w: World, id: nat, staged: seq<StagedEdit>, faults: nat) returns (events: seq<Event>)
    ensures InCheckpoint(events, id) && Run(w, events) == AfterEdit(w, id, staged, faults)
  {
    var first := CheckpointIsARun(w, id, staged, |staged|);
    var recorded := CheckpointTo(w, id, staged, |staged|);
    forall i | 0 <= i < |staged|
      ensures IsRecorded(recorded, id, staged[i].path) && IsRecorded(recorded, id, ResultPath(staged[i]))
    {
      CheckpointRecords(w, id, staged, |staged|, i);
    }
    var second := WritingIsARun(recorded, id, Writing(recorded.files, faults, true), staged, |staged|);
    RunAppend(w, first, second);
    events := first + second;
  }

  lemma {:induction false} EventsBeforeAppend(a: seq<Event>, b: seq<Event>, id: nat)
    requires forall i :: 0 <= i < |b| ==> b[i].id >= id
    ensures EventsBefore(a + b, id) == EventsBefore(a, id)
    decreases |b|
  {
    if b == [] {
      assert a + b == a;
    } else {
      EventsBeforeAppend(a, b[..|b| - 1], id);
      assert (a + b)[..|a + b| - 1] == a + b[..|b| - 1];
    }
  }

  /**
   An edit under checkpoint `id`, whether its write loop completes or fails after any number of file
   operations, is undone by restoring from `id`: the files are again what they were when the
   checkpoint began, which is just before the edit when the checkpoint holds nothing else.
   */
  lemma EditIsUndone(w: World, history: seq<Event>, id: nat, staged: seq<StagedEdit>, faults: nat)
    requires w.checkpoints == map[] && NonDecreasing(history)
    requires forall i :: 0 <= i < |history| ==> history[i].id <= id
    ensures var after := AfterEdit(Run(w, history), id, staged, faults);
      && RestoreFrom(after, id).Some?
      && RestoreFrom(after, id).value.files == Run(w, EventsBefore(history, id)).files
      && ((forall i :: 0 <= i < |history| ==> history[i].id < id) ==>
            RestoreFrom(after, id).value.files == Run(w, history).files)
  {
    var events := EditIsARun(Run(w, history), id, staged, faults);
    RunAppend(w, history, events);
    assert NonDecreasing(history + events);
    RestoreIsTimeTravel(w, history + events, id);
    EventsBeforeAppend(history, events, id);
    if forall i :: 0 <= i < |history| ==> history[i].id < id {
      AllEventsAreBefore(history, id);
    }
  }

}
