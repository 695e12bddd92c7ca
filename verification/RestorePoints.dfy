/**
 Restore points of the agent tools (crates/roost-agent-tools/src/restore_points.rs): each checkpoint
 keeps the state every changed path had before its first change in that checkpoint, and a rewind
 replays the saved states of this and every later checkpoint, newest checkpoint first.
 */
module RestorePoints {

  import opened Basics

  type Path = string
  type Content = seq<Byte>
  type Files = map<Path, Content>

  /** One manifest line. The backup is the number in the backup's file name. */
  datatype ManifestEntry = ManifestEntry(path: Path, existed: bool, backup: Option<nat>)

  /** One checkpoint directory: the manifest and the backup files beside it. */
  datatype Checkpoint = Checkpoint(entries: seq<ManifestEntry>, backups: map<nat, Content>)

  datatype World = World(files: Files, checkpoints: map<nat, Checkpoint>)

  // ---------------------------------------------------------------------------------------------
  // Recording
  // ---------------------------------------------------------------------------------------------

  function CheckpointAt(w: World, id: nat): Checkpoint {
    if id in w.checkpoints then w.checkpoints[id] else Checkpoint([], map[])
  }

  predicate Records(c: Checkpoint, path: Path) {
    exists i :: 0 <= i < |c.entries| && c.entries[i].path == path
  }

  function AddEntry(c: Checkpoint, path: Path, prior: Option<Content>): Checkpoint {
    match prior
    case Some(content) =>
      Checkpoint(c.entries + [ManifestEntry(path, true, Some(|c.entries|))], c.backups[|c.entries| := content])
    case None =>
      Checkpoint(c.entries + [ManifestEntry(path, false, None)], c.backups)
  }

  /** `record_before_change`: saves the state of `path` once per checkpoint. */
  function Record(w: World, id: nat, path: Path): World {
    var c := CheckpointAt(w, id);
    var kept := if Records(c, path) then c else AddEntry(c, path, Lookup(w.files, path));
    w.(checkpoints := w.checkpoints[id := kept])
  }

  // ---------------------------------------------------------------------------------------------
  // Rewinding
  // ---------------------------------------------------------------------------------------------

  /** A rewind in progress: the files, and for each path touched whether it now exists. */
  datatype Rewind = Rewind(files: Files, finalStates: map<Path, bool>)

  /** The content an entry restores, or nothing to read when its backup is missing. */
  function Backup(c: Checkpoint, e: ManifestEntry): Option<Content> {
    if e.backup.Some? then Lookup(c.backups, e.backup.value) else None
  }

  function PutBack(r: Rewind, c: Checkpoint, e: ManifestEntry): Option<Rewind> {
    if !e.existed then Some(Rewind(r.files - {e.path}, r.finalStates[e.path := false]))
    else match Backup(c, e)
      case Some(content) => Some(Rewind(r.files[e.path := content], r.finalStates[e.path := true]))
      case None => None
  }

  /** The first `n` entries of one checkpoint, in manifest order. */
  function PutBackTo(r: Rewind, c: Checkpoint, n: nat): Option<Rewind>
    requires n <= |c.entries|
  {
    if n == 0 then Some(r)
    else match PutBackTo(r, c, n - 1)
      case Some(q) => PutBack(q, c, c.entries[n - 1])
      case None => None
  }

  function PutBackAll(r: Rewind, checkpoints: map<nat, Checkpoint>, ids: seq<nat>): Option<Rewind>
    requires forall i :: 0 <= i < |ids| ==> ids[i] in checkpoints
    decreases |ids|
  {
    if ids == [] then Some(r)
    else
      var c := checkpoints[ids[0]];
      match PutBackTo(r, c, |c.entries|)
      case Some(q) => PutBackAll(q, checkpoints, ids[1..])
      case None => None
  }

  ghost predicate IsNewest(s: set<nat>, m: nat) {
    m in s && forall n :: n in s ==> n <= m
  }

  lemma {:induction false} NewestExists(s: set<nat>)
    requires s != {}
    ensures exists m :: IsNewest(s, m)
  {
    var x :| x in s;
    var rest := s - {x};
    if rest == {} {
      assert s == {x};
      assert IsNewest(s, x);
    } else {
      NewestExists(rest);
      var m :| IsNewest(rest, m);
      forall n | n in s ensures n <= if x > m then x else m { assert n == x || n in rest; }
      assert IsNewest(s, if x > m then x else m);
    }
  }

  /** The checkpoint numbers in `s`, newest first. */
  ghost function NewestFirst(s: set<nat>): (ids: seq<nat>)
    ensures forall i :: 0 <= i < |ids| ==> ids[i] in s
  {
    if s == {} then []
    else
      NewestExists(s);
      var m :| IsNewest(s, m);
      [m] + NewestFirst(s - {m})
  }

  function IdsFrom(checkpoints: map<nat, Checkpoint>, id: nat): set<nat> {
    set n | n in checkpoints && n >= id
  }

  /** `restore_from`: nothing when a manifest names a backup that cannot be read. */
  ghost function RestoreFrom(w: World, id: nat): Option<Rewind> {
    PutBackAll(Rewind(w.files, map[]), w.checkpoints, NewestFirst(IdsFrom(w.checkpoints, id)))
  }

  /** The paths a rewind to `id` reports as restored, and as deleted. */
  function Restored(r: Rewind): set<Path> {
    set p | p in r.finalStates && r.finalStates[p]
  }

  function Deleted(r: Rewind): set<Path> {
    set p | p in r.finalStates && !r.finalStates[p]
  }

  // ---------------------------------------------------------------------------------------------
  // Runs of recorded changes
  // ---------------------------------------------------------------------------------------------

  datatype Change = Keep | Write(content: Content) | Remove

  /** A tool records `path` under checkpoint `id` and may then change it. */
  datatype Event = Event(id: nat, path: Path, change: Change)

  function Changed(files: Files, path: Path, change: Change): Files {
    match change
    case Keep => files
    case Write(content) => files[path := content]
    case Remove => files - {path}
  }

  function Apply(w: World, e: Event): World {
    var recorded := Record(w, e.id, e.path);
    recorded.(files := Changed(recorded.files, e.path, e.change))
  }

  function Run(w: World, events: seq<Event>): World {
    if events == [] then w else Apply(Run(w, events[..|events| - 1]), events[|events| - 1])
  }

  predicate NonDecreasing(events: seq<Event>) {
    forall i, j :: 0 <= i < j < |events| ==> events[i].id <= events[j].id
  }

  /** The events of the checkpoints before `id`. */
  function EventsBefore(events: seq<Event>, id: nat): seq<Event> {
    if events == [] then []
    else
      var rest := EventsBefore(events[..|events| - 1], id);
      if events[|events| - 1].id < id then rest + [events[|events| - 1]] else rest
  }

}
