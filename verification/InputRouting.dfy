/**
 Terminal input (crates/roost-client-core/src/handle_input.rs with terminal/input/router): admission,
 the route a batch goes out on, what a result settles, and the one refusal after which a batch is put
 back unsent.

 The route-claim protocol is abstracted to the phase and epoch changes it makes, which may happen at
 any time; so every run of the code is a run of this model. Clocks become the sets of batches whose
 deadline has passed.
 */
module InputRouting {

  import opened Basics

  datatype Transport = SyncSocket | Loopback | Peer

  /** One carrier generation. */
  datatype Token = Token(socketGeneration: nat, processEpoch: nat, domainGeneration: nat, transport: Transport,
    worker: Option<nat>)

  predicate SameConnection(a: Token, b: Token) {
    a == b.(domainGeneration := a.domainGeneration)
  }

  datatype Phase = Sending | Holding | Claiming | Blocked | Closed

  /** One admitted batch: `fence` is the carrier it was handed to. */
  datatype Pending = Pending(inputSeq: nat, bytes: seq<Byte>, fence: Option<Token>, started: bool)

  datatype Lane = Lane(phase: Phase, pending: seq<Pending>, pendingBytes: nat, epochToken: Option<Token>,
    required: bool)

  type Session = string

  datatype Router = Router(lanes: map<Session, Lane>, nextInputSeq: nat)

  /** A batch handed to a transport. */
  datatype Send = Send(inputSeq: nat, token: Token)

  /** A worker's verdict; `RouteChanged` is the refusal it gives only before writing. */
  datatype Outcome = Accepted | RouteChanged | Rejected | Ambiguous

  const MAX_INPUT_BYTES := 64 * 1024
  const MAX_PENDING_INPUTS := 200
  const MAX_PENDING_BYTES := 256 * 1024
  const MAX_STARTED_INPUTS := 8

  const NEW_LANE := Lane(Sending, [], 0, None, false)

  function LaneOf(r: Router, session: Session): Lane {
    if session in r.lanes then r.lanes[session] else NEW_LANE
  }

  function WithLane(r: Router, session: Session, lane: Lane): Router {
    r.(lanes := r.lanes[session := lane])
  }

  // ---------------------------------------------------------------------------------------------
  // Admission
  // ---------------------------------------------------------------------------------------------

  predicate HasRoom(lane: Lane, bytes: seq<Byte>) {
    |lane.pending| < MAX_PENDING_INPUTS && lane.pendingBytes + |bytes| <= MAX_PENDING_BYTES
  }

  function Queued(lane: Lane, n: nat, bytes: seq<Byte>): Lane {
    lane.(pending := lane.pending + [Pending(n, bytes, None, false)], pendingBytes := lane.pendingBytes + |bytes|)
  }

  /** The admitted sequence, or nothing when the batch is refused; an empty or crowded-out batch spends one too. */
  function Admit(r: Router, session: Session, bytes: seq<Byte>): (Router, Option<nat>) {
    var lane := LaneOf(r, session);
    var n := r.nextInputSeq + 1;
    if lane.phase.Closed? || lane.phase.Blocked? || |bytes| > MAX_INPUT_BYTES then (WithLane(r, session, lane), None)
    else if bytes == [] || !HasRoom(lane, bytes) then (WithLane(r, session, lane).(nextInputSeq := n), None)
    else (WithLane(r, session, Queued(lane, n, bytes)).(nextInputSeq := n), Some(n))
  }

  // ---------------------------------------------------------------------------------------------
  // Dispatch
  // ---------------------------------------------------------------------------------------------

  function StartedCount(pending: seq<Pending>): nat {
    if pending == [] then 0
    else StartedCount(pending[..|pending| - 1]) + (if pending[|pending| - 1].started then 1 else 0)
  }

  /** The sequences of the first `room` unstarted batches, oldest first. */
  function FirstUnstarted(pending: seq<Pending>, room: nat): seq<nat> {
    if pending == [] then []
    else
      var before := FirstUnstarted(pending[..|pending| - 1], room);
      var last := pending[|pending| - 1];
      if last.started || |before| >= room then before else before + [last.inputSeq]
  }

  /** What a sending lane may hand to a transport beside the batches already in flight. */
  function Startable(lane: Lane): seq<nat> {
    if !lane.phase.Sending? then []
    else
      var started := StartedCount(lane.pending);
      FirstUnstarted(lane.pending, if started < MAX_STARTED_INPUTS then MAX_STARTED_INPUTS - started else 0)
  }

  function MarkStarted(p: Pending, token: Token): Pending {
    p.(started := true, fence := Some(token))
  }

  function MarkAll(pending: seq<Pending>, seqs: seq<nat>, token: Token): (marked: seq<Pending>)
    ensures |marked| == |pending|
  {
    if pending == [] then []
    else
      var last := pending[|pending| - 1];
      MarkAll(pending[..|pending| - 1], seqs, token) +
        [if last.inputSeq in seqs then MarkStarted(last, token) else last]
  }

  lemma {:induction false} MarkNone(pending: seq<Pending>, token: Token)
    ensures MarkAll(pending, [], token) == pending
  {
    if pending != [] {
      MarkNone(pending[..|pending| - 1], token);
      assert pending == pending[..|pending| - 1] + [pending[|pending| - 1]];
    }
  }

  function SendsOf(seqs: seq<nat>, token: Token): seq<Send> {
    seq(|seqs|, i requires 0 <= i < |seqs| => Send(seqs[i], token))
  }

  /** Hands `token`'s transport every unsent batch the window has room for. */
  function DispatchStartable(r: Router, session: Session, token: Token): (Router, seq<Send>) {
    if session !in r.lanes then (r, [])
    else
      var lane := r.lanes[session];
      var seqs := Startable(lane);
      (WithLane(r, session, lane.(pending := MarkAll(lane.pending, seqs, token))), SendsOf(seqs, token))
  }

  predicate IsHolding(lane: Lane) {
    lane.phase.Holding? || lane.phase.Claiming?
  }

  /** Sends what waits behind a freed slot, when the lane is not held and a destination exists. */
  function SendQueued(r: Router, session: Session, destination: Option<Token>): (Router, seq<Send>) {
    if destination.None? || IsHolding(LaneOf(r, session)) then (r, [])
    else DispatchStartable(r, session, destination.value)
  }

  // ---------------------------------------------------------------------------------------------
  // Settling
  // ---------------------------------------------------------------------------------------------

  function Without(pending: seq<Pending>, gone: set<nat>): seq<Pending> {
    if pending == [] then []
    else
      var before := Without(pending[..|pending| - 1], gone);
      var last := pending[|pending| - 1];
      if last.inputSeq in gone then before else before + [last]
  }

  function BytesOf(pending: seq<Pending>): nat {
    if pending == [] then 0 else BytesOf(pending[..|pending| - 1]) + |pending[|pending| - 1].bytes|
  }

  /** Settled batches leave the lane and their bytes leave its account. */
  function SettleIn(lane: Lane, gone: set<nat>): Lane {
    var kept := Without(lane.pending, gone);
    var freed := BytesOf(lane.pending) - BytesOf(kept);
    lane.(pending := kept, pendingBytes := if freed <= lane.pendingBytes then lane.pendingBytes - freed else 0)
  }

  function SettleAll(r: Router, gone: set<nat>): Router {
    r.(lanes := map s | s in r.lanes :: SettleIn(r.lanes[s], gone))
  }

  predicate IsPendingIn(lane: Lane, n: nat) {
    exists i :: 0 <= i < |lane.pending| && lane.pending[i].inputSeq == n
  }

  predicate IsPending(r: Router, n: nat) {
    exists s :: s in r.lanes && IsPendingIn(r.lanes[s], n)
  }

  /** The batches of a lane that satisfy a condition. */
  function Select(pending: seq<Pending>, keep: Pending -> bool): set<nat> {
    if pending == [] then {}
    else
      var last := pending[|pending| - 1];
      Select(pending[..|pending| - 1], keep) + (if keep(last) then {last.inputSeq} else {})
  }

  function RefuseUnstarted(lane: Lane): Lane {
    SettleIn(lane, Select(lane.pending, (p: Pending) => !p.started))
  }

  /** A blocked or closed lane refuses every batch that has not started. */
  function SetPhase(lane: Lane, phase: Phase): Lane {
    var moved := lane.(phase := phase);
    if phase.Blocked? || phase.Closed? then RefuseUnstarted(moved) else moved
  }

  /** Everything dispatched on a retired carrier settles. */
  function RetireFenced(r: Router, retired: Token -> bool): Router {
    r.(lanes := map s | s in r.lanes ::
      SettleIn(r.lanes[s], Select(r.lanes[s].pending, (p: Pending) => p.fence.Some? && retired(p.fence.value))))
  }

  // ---------------------------------------------------------------------------------------------
  // The lost route
  // ---------------------------------------------------------------------------------------------

  function ForgetRoute(lane: Lane): Lane {
    SetPhase(lane.(epochToken := None), Blocked)
  }

  function BlockRoutesOnSyncSocket(r: Router, generation: nat): Router {
    r.(lanes := map s | s in r.lanes ::
      var lane := r.lanes[s];
      if lane.phase.Sending? && lane.epochToken.Some? && lane.epochToken.value.transport.SyncSocket? &&
         lane.epochToken.value.socketGeneration == generation
      then ForgetRoute(lane) else lane)
  }

  predicate CarriedOnSync(lane: Lane, n: nat) {
    exists i :: 0 <= i < |lane.pending| && lane.pending[i].inputSeq == n && lane.pending[i].started &&
      lane.pending[i].fence.Some? && lane.pending[i].fence.value.transport.SyncSocket?
  }

  predicate Requeues(lane: Lane, n: nat) {
    && CarriedOnSync(lane, n) && !lane.phase.Closed?
    && !(lane.epochToken.Some? && !lane.epochToken.value.transport.SyncSocket?)
  }

  function Unsend(pending: seq<Pending>, n: nat): seq<Pending> {
    if pending == [] then []
    else
      var last := pending[|pending| - 1];
      Unsend(pending[..|pending| - 1], n) +
        [if last.inputSeq == n then last.(started := false, fence := None) else last]
  }

  /** The refused batch goes back unsent; a sending lane blocks first, refusing what it still queued. */
  function Requeue(lane: Lane, n: nat): Lane {
    var blocked := if lane.phase.Sending? then ForgetRoute(lane) else lane;
    blocked.(pending := Unsend(blocked.pending, n))
  }

  /** A blocked lane with no direct route left holds its input while Sync claims the route back. */
  function Reclaim(lane: Lane, reclaimable: bool): Lane {
    if lane.phase.Blocked? && reclaimable then lane.(phase := Holding) else lane
  }

  // ---------------------------------------------------------------------------------------------
  // The handlers
  // ---------------------------------------------------------------------------------------------

  /** `handle_terminal_input`: `reclaimable` says that no direct route serves the session and its worker is known. */
  function TerminalInput(r: Router, session: Session, bytes: seq<Byte>, destination: Option<Token>,
      reclaimable: bool)
      : (Router, seq<Send>)
  {
    var reclaimed := if session in r.lanes then WithLane(r, session, Reclaim(r.lanes[session], reclaimable)) else r;
    var (admitted, n) := Admit(reclaimed, session, bytes);
    if n.None? || IsHolding(LaneOf(admitted, session)) then (admitted, [])
    else if destination.None? then (SettleAll(admitted, {n.value}), [])
    else DispatchStartable(admitted, session, destination.value)
  }

  /** `handle_input_result`, for a result the Sync socket delivered. */
  function InputResult(r: Router, session: Session, n: nat, outcome: Outcome, directRoute: bool, reclaimable: bool,
                       destination: Option<Token>): (Router, seq<Send>) {
    var lane := LaneOf(r, session);
    var moved := session in r.lanes && !directRoute && outcome.RouteChanged? && Requeues(lane, n);
    var requeued := if moved then Reclaim(Requeue(lane, n), reclaimable) else lane;
    if moved && IsHolding(requeued) then (WithLane(r, session, requeued), [])
    else
      var r' := if moved then WithLane(r, session, requeued) else r;
      if !IsPending(r', n) then (r', [])
      else SendQueued(SettleAll(r', {n}), session, destination)
  }

  /** A direct carrier's result settles only a batch that this carrier was handed. */
  predicate CarriedBy(lane: Lane, n: nat, token: Token) {
    exists i :: 0 <= i < |lane.pending| && lane.pending[i].inputSeq == n && lane.pending[i].fence == Some(token)
  }

  function DirectResult(r: Router, session: Session, n: nat, token: Token, destination: Option<Token>)
      : (Router, seq<Send>)
  {
    if session !in r.lanes || !CarriedBy(r.lanes[session], n, token) then (r, [])
    else SendQueued(WithLane(r, session, SettleIn(r.lanes[session], {n})), session, destination)
  }

  // ---------------------------------------------------------------------------------------------
  // The route claim, as the phases it moves a lane through
  // ---------------------------------------------------------------------------------------------

  function Hold(r: Router, session: Session): Router {
    var lane := LaneOf(r, session);
    if lane.phase.Closed? then WithLane(r, session, lane) else WithLane(r, session, lane.(phase := Holding))
  }

  function Claim(r: Router, session: Session, exhausted: bool): Router {
    WithLane(r, session,
      LaneOf(r, session).(required := true, epochToken := None, phase := if exhausted then Blocked else Claiming))
  }

  function ClaimAnswered(r: Router, session: Session, accepted: Option<Token>): Router {
    if session !in r.lanes then r
    else
      var lane := r.lanes[session].(phase := Holding);
      WithLane(r, session, if accepted.Some? then lane.(epochToken := accepted) else lane)
  }

  function BlockLane(r: Router, session: Session): Router {
    if session !in r.lanes || r.lanes[session].phase.Closed? then r
    else WithLane(r, session, SetPhase(r.lanes[session], Blocked))
  }

  /** Ends the hold and sends what it kept on `route`, if the epoch the worker requires is held for it. */
  function Release(r: Router, session: Session, route: Token): (Router, seq<Send>) {
    if session !in r.lanes then (r, [])
    else
      var lane := r.lanes[session];
      if lane.required && !(lane.epochToken.Some? && SameConnection(lane.epochToken.value, route))
        then (BlockLane(r, session), [])
      else if lane.phase.Closed? then (r, [])
      else DispatchStartable(WithLane(r, session, lane.(phase := Sending)), session, route)
  }

}
