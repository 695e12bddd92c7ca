/**
 What every step of the input handlers keeps, with a worker that gives the route-changed refusal only
 before writing and carriers that may deliver an answer late, never or again.
 */
module InputProofs {

  import opened Basics
  import opened InputRouting

  // ---------------------------------------------------------------------------------------------
  // Client, carriers and worker together
  // ---------------------------------------------------------------------------------------------

  /** What the worker did with one batch it was handed. */
  datatype Verdict = Verdict(outcome: Outcome, wrote: bool)

  /** One hand-over of a batch: to whom, what the worker did with it, and whether the client was ever told. */
  datatype Wire = Wire(session: Session, send: Send, verdict: Option<Verdict>, delivered: bool)

  datatype World = World(router: Router, wires: seq<Wire>)

  datatype Event =
    | Typed(session: Session, bytes: seq<Byte>, destination: Option<Token>, reclaimable: bool)
    | WorkerHandles(wire: nat, verdict: Verdict)
    | Answered(wire: nat, directRoute: bool, reclaimable: bool, destination: Option<Token>)
    | QueueSent(session: Session, destination: Option<Token>)
    | TokenRetired(token: Token)
    | SyncSocketClosed(generation: nat)
    | RouteHeld(session: Session)
    | RouteClaimed(session: Session, exhausted: bool)
    | RouteClaimAnswered(session: Session, accepted: Option<Token>)
    | RouteReleased(session: Session, route: Token)
    | RouteBlocked(session: Session)
    | SessionClosed(session: Session)
    | HeldExpired(expired: set<nat>)
    | ResultOverdue(overdue: set<nat>)

  function Hand(w: World, session: Session, dispatched: (Router, seq<Send>)): World {
    World(dispatched.0, w.wires +
      seq(|dispatched.1|, i requires 0 <= i < |dispatched.1| => Wire(session, dispatched.1[i], None, false)))
  }

  /** A worker judges a batch once, and refuses it for a changed route only before writing. */
  predicate MayHandle(w: World, k: nat, verdict: Verdict) {
    k < |w.wires| && w.wires[k].verdict.None? && (verdict.outcome.RouteChanged? ==> !verdict.wrote)
  }

  /** An answer may arrive any number of times once the worker has given it. */
  predicate MayAnswer(w: World, k: nat) {
    k < |w.wires| && w.wires[k].verdict.Some?
  }

  function Step(w: World, e: Event): World {
    match e
    case Typed(session, bytes, destination, reclaimable) =>
      Hand(w, session, TerminalInput(w.router, session, bytes, destination, reclaimable))
    case WorkerHandles(k, verdict) =>
      if MayHandle(w, k, verdict) then w.(wires := w.wires[k := w.wires[k].(verdict := Some(verdict))]) else w
    case Answered(k, directRoute, reclaimable, destination) =>
      if !MayAnswer(w, k) then w
      else
        var wire := w.wires[k];
        var told := w.(wires := w.wires[k := wire.(delivered := true)]);
        if wire.send.token.transport.SyncSocket? then
          Hand(told, wire.session, InputResult(w.router, wire.session, wire.send.inputSeq, wire.verdict.value.outcome,
                                               directRoute, reclaimable, destination))
        else
          Hand(told, wire.session,
            DirectResult(w.router, wire.session, wire.send.inputSeq, wire.send.token, destination))
    case QueueSent(session, destination) => Hand(w, session, SendQueued(w.router, session, destination))
    case TokenRetired(token) => w.(router := RetireFenced(w.router, (t: Token) => t == token))
    case SyncSocketClosed(generation) =>
      var retired := RetireFenced(w.router, (t: Token) => t.transport.SyncSocket? && t.socketGeneration == generation);
      w.(router := BlockRoutesOnSyncSocket(retired, generation))
    case RouteHeld(session) => w.(router := Hold(w.router, session))
    case RouteClaimed(session, exhausted) => w.(router := Claim(w.router, session, exhausted))
    case RouteClaimAnswered(session, accepted) => w.(router := ClaimAnswered(w.router, session, accepted))
    case RouteReleased(session, route) => Hand(w, session, Release(w.router, session, route))
    case RouteBlocked(session) => w.(router := BlockLane(w.router, session))
    case SessionClosed(session) =>
      w.(router := WithLane(w.router, session, SetPhase(LaneOf(w.router, session), Closed)))
    case HeldExpired(expired) => w.(router := Sweep(w.router, expired, false))
    case ResultOverdue(overdue) => w.(router := Sweep(w.router, overdue, true))
  }

  /** The deadline sweeps: started batches whose result is overdue, or held ones whose admission is. */
  function Sweep(r: Router, due: set<nat>, started: bool): Router {
    r.(lanes := map s | s in r.lanes ::
      var lane := r.lanes[s];
      if started then SettleIn(lane, Select(lane.pending, (p: Pending) => p.inputSeq in due && p.started))
      else if lane.phase.Sending? && StartedCount(lane.pending) > 0 then lane
      else SettleIn(lane, Select(lane.pending, (p: Pending) => p.inputSeq in due && !p.started)))
  }

  function Run(w: World, events: seq<Event>): World {
    if events == [] then w else Step(Run(w, events[..|events| - 1]), events[|events| - 1])
  }

  const INITIAL := World(Router(map[], 0), [])

  // ---------------------------------------------------------------------------------------------
  // Lanes
  // ---------------------------------------------------------------------------------------------

  ghost function Seqs(pending: seq<Pending>): set<nat> {
    if pending == [] then {} else Seqs(pending[..|pending| - 1]) + {pending[|pending| - 1].inputSeq}
  }

  ghost function Unstarted(pending: seq<Pending>): set<nat> {
    if pending == [] then {}
    else
      var last := pending[|pending| - 1];
      Unstarted(pending[..|pending| - 1]) + (if last.started then {} else {last.inputSeq})
  }

  /** Batches wait in the order they were typed. */
  ghost predicate Sorted(pending: seq<Pending>) {
    if pending == [] then true
    else
      var earlier, last := Seqs(pending[..|pending| - 1]), pending[|pending| - 1].inputSeq;
      Sorted(pending[..|pending| - 1]) && forall n :: n in earlier ==> n < last
  }

  /** The lane's accounts: at most 200 batches and 256 KiB outstanding, at most 8 batches in flight. */
  ghost predicate Accounted(lane: Lane) {
    && Sorted(lane.pending)
    && |lane.pending| <= MAX_PENDING_INPUTS
    && lane.pendingBytes == BytesOf(lane.pending) <= MAX_PENDING_BYTES
    && StartedCount(lane.pending) <= MAX_STARTED_INPUTS
  }

  /** `after` holds no batch that `before` did not, and unsends none. */
  ghost predicate Narrows(before: Lane, after: Lane) {
    && Seqs(after.pending) <= Seqs(before.pending)
    && Unstarted(after.pending) <= Unstarted(before.pending)
    && (Accounted(before) ==> Accounted(after))
  }

  lemma {:induction false} WithoutSeqs(pending: seq<Pending>, gone: set<nat>)
    ensures Seqs(Without(pending, gone)) == Seqs(pending) - gone
  {
    if pending != [] {
      var init, last := pending[..|pending| - 1], pending[|pending| - 1];
      WithoutSeqs(init, gone);
      if last.inputSeq !in gone { PushSeqs(Without(init, gone), last); }
    }
  }

  lemma {:induction false} WithoutUnstarted(pending: seq<Pending>, gone: set<nat>)
    ensures Unstarted(Without(pending, gone)) == Unstarted(pending) - gone
  {
    if pending != [] {
      var init, last := pending[..|pending| - 1], pending[|pending| - 1];
      WithoutUnstarted(init, gone);
      if last.inputSeq !in gone { PushSeqs(Without(init, gone), last); }
    }
  }

  lemma {:induction false} WithoutSorted(pending: seq<Pending>, gone: set<nat>)
    requires Sorted(pending)
    ensures Sorted(Without(pending, gone))
  {
    if pending != [] {
      var init, last := pending[..|pending| - 1], pending[|pending| - 1];
      WithoutSorted(init, gone);
      WithoutSeqs(init, gone);
      var before := Without(init, gone);
      assert (before + [last])[..|before|] == before;
      assert Seqs(before) <= Seqs(init);
    }
  }

  lemma PushSeqs(pending: seq<Pending>, last: Pending)
    ensures Seqs(pending + [last]) == Seqs(pending) + {last.inputSeq}
    ensures Unstarted(pending + [last]) == Unstarted(pending) + (if last.started then {} else {last.inputSeq})
  {
    assert (pending + [last])[..|pending|] == pending;
  }

  lemma {:induction false} WithoutShrinks(pending: seq<Pending>, gone: set<nat>)
    ensures var kept := Without(pending, gone);
      |kept| <= |pending| && BytesOf(kept) <= BytesOf(pending) && StartedCount(kept) <= StartedCount(pending)
  {
    if pending != [] {
      var init, last := pending[..|pending| - 1], pending[|pending| - 1];
      WithoutShrinks(init, gone);
      var before := Without(init, gone);
      assert (before + [last])[..|before|] == before;
    }
  }

  lemma SettleNarrows(lane: Lane, gone: set<nat>)
    ensures Narrows(lane, SettleIn(lane, gone))
    ensures Seqs(SettleIn(lane, gone).pending) == Seqs(lane.pending) - gone
  {
    WithoutSeqs(lane.pending, gone);
    WithoutUnstarted(lane.pending, gone);
    WithoutShrinks(lane.pending, gone);
    if Sorted(lane.pending) { WithoutSorted(lane.pending, gone); }
  }

  lemma {:induction false} MarkAllKeeps(pending: seq<Pending>, seqs: seq<nat>, token: Token)
    ensures var marked := MarkAll(pending, seqs, token);
      && Seqs(marked) == Seqs(pending) && BytesOf(marked) == BytesOf(pending)
      && Unstarted(marked) <= Unstarted(pending)
      && (forall n :: n in Unstarted(marked) ==> n !in seqs)
      && (Sorted(pending) ==> Sorted(marked))
  {
    if pending != [] {
      var marked := MarkAll(pending, seqs, token);
      MarkAllKeeps(pending[..|pending| - 1], seqs, token);
      assert marked[..|marked| - 1] == MarkAll(pending[..|pending| - 1], seqs, token);
    }
  }

  lemma {:induction false} UnsendKeeps(pending: seq<Pending>, n: nat)
    ensures var unsent := Unsend(pending, n);
      && Seqs(unsent) == Seqs(pending) && BytesOf(unsent) == BytesOf(pending) && |unsent| == |pending|
      && Unstarted(unsent) <= Unstarted(pending) + {n}
      && (n in Seqs(pending) ==> n in Unstarted(unsent))
      && StartedCount(unsent) <= StartedCount(pending)
      && (Sorted(pending) ==> Sorted(unsent))
  {
    if pending != [] {
      var unsent := Unsend(pending, n);
      UnsendKeeps(pending[..|pending| - 1], n);
      assert unsent[..|unsent| - 1] == Unsend(pending[..|pending| - 1], n);
    }
  }

  /** The startable batches are distinct unstarted ones, as many as the window has room for. */
  lemma {:induction false} FirstUnstartedAre(pending: seq<Pending>, room: nat)
    requires Sorted(pending)
    ensures var seqs := FirstUnstarted(pending, room);
      && |seqs| <= room
      && (forall i :: 0 <= i < |seqs| ==> seqs[i] in Unstarted(pending))
      && (forall i, j :: 0 <= i < j < |seqs| ==> seqs[i] < seqs[j])
  {
    if pending != [] {
      var init, last := pending[..|pending| - 1], pending[|pending| - 1];
      FirstUnstartedAre(init, room);
      UnstartedArePending(init);
      var before := FirstUnstarted(init, room);
      assert forall i :: 0 <= i < |before| ==> before[i] in Seqs(init);
    }
  }

  lemma {:induction false} UnstartedArePending(pending: seq<Pending>)
    ensures Unstarted(pending) <= Seqs(pending)
  {
    if pending != [] { UnstartedArePending(pending[..|pending| - 1]); }
  }

  /** Marking the startable batches starts exactly them. */
  lemma {:induction false} MarkAllStarts(pending: seq<Pending>, seqs: seq<nat>, token: Token, m: nat)
    requires Sorted(pending)
    requires forall i, j :: 0 <= i < j < |seqs| ==> seqs[i] < seqs[j]
    requires m <= |seqs| && forall i :: 0 <= i < |seqs| ==> (i < m <==> seqs[i] in Seqs(pending))
    ensures StartedCount(MarkAll(pending, seqs, token)) <= StartedCount(pending) + m
  {
    if pending != [] {
      var init, last := pending[..|pending| - 1], pending[|pending| - 1];
      var marked := MarkAll(pending, seqs, token);
      assert marked[..|marked| - 1] == MarkAll(init, seqs, token);
      if last.inputSeq in seqs {
        var k :| 0 <= k < |seqs| && seqs[k] == last.inputSeq;
        assert k < m;
        assert forall i :: 0 <= i < |seqs| ==> (i < k <==> seqs[i] in Seqs(init)) by {
          forall i | 0 <= i < |seqs| ensures i < k <==> seqs[i] in Seqs(init) {
            assert i < k ==> seqs[i] in Seqs(pending) && seqs[i] != last.inputSeq;
            assert seqs[i] in Seqs(init) ==> seqs[i] < seqs[k];
          }
        }
        MarkAllStarts(init, seqs, token, k);
      } else {
        MarkAllStarts(init, seqs, token, m);
      }
    }
  }

  lemma DispatchNarrows(lane: Lane, token: Token)
    requires Accounted(lane)
    ensures var seqs := Startable(lane);
      var after := lane.(pending := MarkAll(lane.pending, seqs, token));
      && Accounted(after) && Seqs(after.pending) == Seqs(lane.pending)
      && Unstarted(after.pending) <= Unstarted(lane.pending)
      && (forall n :: n in Unstarted(after.pending) ==> n !in seqs)
      && (forall i :: 0 <= i < |seqs| ==> seqs[i] in Unstarted(lane.pending))
      && (forall i, j :: 0 <= i < j < |seqs| ==> seqs[i] < seqs[j])
  {
    var seqs := Startable(lane);
    var started := StartedCount(lane.pending);
    FirstUnstartedAre(lane.pending, if started < MAX_STARTED_INPUTS then MAX_STARTED_INPUTS - started else 0);
    UnstartedArePending(lane.pending);
    MarkAllKeeps(lane.pending, seqs, token);
    MarkAllStarts(lane.pending, seqs, token, |seqs|);
  }

  // ---------------------------------------------------------------------------------------------
  // The invariant
  // ---------------------------------------------------------------------------------------------

  /** The worker refused this Sync hand-over without writing, and the client knows. */
  predicate Retired(wire: Wire) {
    wire.send.token.transport.SyncSocket? && wire.verdict == Some(Verdict(RouteChanged, false)) && wire.delivered
  }

  ghost predicate AllRetired(wires: seq<Wire>, n: nat) {
    forall k :: 0 <= k < |wires| && wires[k].send.inputSeq == n ==> Retired(wires[k])
  }

  /** Every earlier hand-over of a batch was refused unwritten. */
  ghost predicate OnlyLastIsOpen(wires: seq<Wire>) {
    forall i, j :: 0 <= i < j < |wires| && wires[i].send.inputSeq == wires[j].send.inputSeq ==> Retired(wires[i])
  }

  ghost predicate TruthfulRefusals(wires: seq<Wire>) {
    forall k :: 0 <= k < |wires| && wires[k].verdict.Some? && wires[k].verdict.value.outcome.RouteChanged? ==>
      !wires[k].verdict.value.wrote
  }

  ghost predicate LanesOk(r: Router) {
    && (forall s :: s in r.lanes ==> Accounted(r.lanes[s]))
    && (forall s, n :: s in r.lanes && n in Seqs(r.lanes[s].pending) ==> n <= r.nextInputSeq)
    && (forall s, t :: s in r.lanes && t in r.lanes && s != t ==> Seqs(r.lanes[s].pending) !! Seqs(r.lanes[t].pending))
  }

  ghost predicate UnsentAreSafe(r: Router, wires: seq<Wire>) {
    forall s, n :: s in r.lanes && n in Unstarted(r.lanes[s].pending) ==> AllRetired(wires, n)
  }

  ghost predicate WiresOk(wires: seq<Wire>, next: nat) {
    && OnlyLastIsOpen(wires) && TruthfulRefusals(wires)
    && forall k :: 0 <= k < |wires| ==> wires[k].send.inputSeq <= next
  }

  ghost predicate Inv(w: World) {
    LanesOk(w.router) && WiresOk(w.wires, w.router.nextInputSeq) && UnsentAreSafe(w.router, w.wires)
  }

  /** Steps that only settle batches or move phases keep the invariant. */
  lemma NarrowKeeps(w: World, r: Router)
    requires Inv(w) && r.nextInputSeq >= w.router.nextInputSeq
    requires forall s :: s in r.lanes ==> Narrows(LaneOf(w.router, s), r.lanes[s])
    ensures Inv(w.(router := r))
  {
    forall s | s in r.lanes ensures Accounted(r.lanes[s]) {
      assert Accounted(LaneOf(w.router, s));
    }
    forall s, t | s in r.lanes && t in r.lanes && s != t ensures Seqs(r.lanes[s].pending) !! Seqs(r.lanes[t].pending) {
      assert Seqs(LaneOf(w.router, s).pending) !! Seqs(LaneOf(w.router, t).pending);
    }
  }

  /** Replacing one lane by a narrower one keeps the invariant. */
  lemma LaneKeeps(w: World, session: Session, lane: Lane)
    requires Inv(w) && Narrows(LaneOf(w.router, session), lane)
    ensures Inv(w.(router := WithLane(w.router, session, lane)))
  {
    NarrowKeeps(w, WithLane(w.router, session, lane));
  }

  lemma SetPhaseNarrows(lane: Lane, phase: Phase)
    ensures Narrows(lane, SetPhase(lane, phase))
  {
    var moved := lane.(phase := phase);
    SettleNarrows(moved, Select(moved.pending, (p: Pending) => !p.started));
  }

  lemma DispatchKeeps(w: World, session: Session, token: Token)
    requires Inv(w)
    ensures Inv(Hand(w, session, DispatchStartable(w.router, session, token)))
  {
    if session in w.router.lanes {
      var lane := w.router.lanes[session];
      var seqs := Startable(lane);
      DispatchNarrows(lane, token);
      LaneKeeps(w, session, lane.(pending := MarkAll(lane.pending, seqs, token)));
      NewWiresKeep(w, session, lane, seqs, token);
      StillUnsentIsSafe(w, session, lane.(pending := MarkAll(lane.pending, seqs, token)), seqs, token);
    } else {
      assert Hand(w, session, DispatchStartable(w.router, session, token)).wires == w.wires;
    }
  }

  /** What stays unsent was not handed over, so its hand-overs are still the refused ones. */
  lemma StillUnsentIsSafe(w: World, session: Session, after: Lane, seqs: seq<nat>, token: Token)
    requires Inv(w) && session in w.router.lanes
    requires Unstarted(after.pending) <= Unstarted(w.router.lanes[session].pending)
    requires forall n :: n in Unstarted(after.pending) ==> n !in seqs
    requires forall i :: 0 <= i < |seqs| ==> seqs[i] in Unstarted(w.router.lanes[session].pending)
    ensures UnsentAreSafe(WithLane(w.router, session, after), Hand(w, session, (w.router, SendsOf(seqs, token))).wires)
  {
    var r := WithLane(w.router, session, after);
    var wires := Hand(w, session, (w.router, SendsOf(seqs, token))).wires;
    forall s, n | s in r.lanes && n in Unstarted(r.lanes[s].pending) ensures AllRetired(wires, n) {
      assert n in Unstarted(w.router.lanes[s].pending) && AllRetired(w.wires, n);
      assert n !in seqs by {
        UnstartedArePending(w.router.lanes[session].pending);
        UnstartedArePending(w.router.lanes[s].pending);
        if s != session { assert Seqs(w.router.lanes[s].pending) !! Seqs(w.router.lanes[session].pending); }
      }
    }
  }

  /** Only unsent batches are handed over, each once, so earlier hand-overs of them were all refused. */
  lemma NewWiresKeep(w: World, session: Session, lane: Lane, seqs: seq<nat>, token: Token)
    requires Inv(w) && session in w.router.lanes && lane == w.router.lanes[session]
    requires forall i :: 0 <= i < |seqs| ==> seqs[i] in Unstarted(lane.pending)
    requires forall i, j :: 0 <= i < j < |seqs| ==> seqs[i] < seqs[j]
    ensures WiresOk(Hand(w, session, (w.router, SendsOf(seqs, token))).wires, w.router.nextInputSeq)
  {
    var wires := Hand(w, session, (w.router, SendsOf(seqs, token))).wires;
    var n := |w.wires|;
    assert forall k :: 0 <= k < n ==> wires[k] == w.wires[k];
    assert forall k :: n <= k < |wires| ==> wires[k] == Wire(session, Send(seqs[k - n], token), None, false);
    forall i, j | 0 <= i < j < |wires| && wires[i].send.inputSeq == wires[j].send.inputSeq ensures Retired(wires[i]) {
      if j >= n {
        assert seqs[j - n] in Unstarted(lane.pending) && AllRetired(w.wires, seqs[j - n]);
        assert i < n;
      }
    }
    forall k | 0 <= k < |wires| ensures wires[k].send.inputSeq <= w.router.nextInputSeq {
      if k >= n {
        UnstartedArePending(lane.pending);
        assert seqs[k - n] in Seqs(lane.pending);
      }
    }
  }

  lemma QueueKeeps(w: World, session: Session, destination: Option<Token>)
    requires Inv(w)
    ensures Inv(Hand(w, session, SendQueued(w.router, session, destination)))
  {
    if destination.Some? { DispatchKeeps(w, session, destination.value); }
    assert Hand(w, session, (w.router, [])).wires == w.wires;
  }

  /** Queueing a fresh batch behind the others. */
  lemma PushKeeps(lane: Lane, n: nat, bytes: seq<Byte>)
    requires Accounted(lane) && HasRoom(lane, bytes) && forall m :: m in Seqs(lane.pending) ==> m < n
    ensures var after := Queued(lane, n, bytes);
      && Accounted(after)
      && Seqs(after.pending) == Seqs(lane.pending) + {n}
      && Unstarted(after.pending) == Unstarted(lane.pending) + {n}
  {
    var after := lane.pending + [Pending(n, bytes, None, false)];
    assert after[..|after| - 1] == lane.pending;
  }

  lemma LaneFacts(w: World, session: Session)
    requires Inv(w)
    ensures Accounted(LaneOf(w.router, session))
    ensures forall n :: n in Seqs(LaneOf(w.router, session).pending) ==> n <= w.router.nextInputSeq
  {
  }

  /** A lane may gain one batch whose sequence was never used. */
  lemma FreshKeeps(w: World, session: Session, lane: Lane, n: nat)
    requires Inv(w) && n == w.router.nextInputSeq + 1 && Accounted(lane)
    requires Seqs(lane.pending) == Seqs(LaneOf(w.router, session).pending) + {n}
    requires Unstarted(lane.pending) == Unstarted(LaneOf(w.router, session).pending) + {n}
    ensures Inv(w.(router := WithLane(w.router, session, lane).(nextInputSeq := n)))
  {
    var r := WithLane(w.router, session, lane).(nextInputSeq := n);
    assert LanesOk(r) by { FreshLanesOk(w, session, lane, n); }
    assert AllRetired(w.wires, n);
  }

  lemma FreshLanesOk(w: World, session: Session, lane: Lane, n: nat)
    requires Inv(w) && n == w.router.nextInputSeq + 1 && Accounted(lane)
    requires Seqs(lane.pending) == Seqs(LaneOf(w.router, session).pending) + {n}
    ensures LanesOk(WithLane(w.router, session, lane).(nextInputSeq := n))
  {
    var r := WithLane(w.router, session, lane).(nextInputSeq := n);
    forall s, t | s in r.lanes && t in r.lanes && s != t ensures Seqs(r.lanes[s].pending) !! Seqs(r.lanes[t].pending) {
      LaneFacts(w, s);
      LaneFacts(w, t);
      assert Seqs(LaneOf(w.router, s).pending) !! Seqs(LaneOf(w.router, t).pending);
    }
  }

  lemma RefusedKeeps(w: World, session: Session, next: nat)
    requires Inv(w) && next >= w.router.nextInputSeq
    ensures Inv(w.(router := WithLane(w.router, session, LaneOf(w.router, session)).(nextInputSeq := next)))
  {
    NarrowKeeps(w, WithLane(w.router, session, LaneOf(w.router, session)).(nextInputSeq := next));
  }

  lemma AdmitKeeps(w: World, session: Session, bytes: seq<Byte>)
    requires Inv(w)
    ensures Inv(w.(router := Admit(w.router, session, bytes).0))
  {
    var lane := LaneOf(w.router, session);
    var n := w.router.nextInputSeq + 1;
    var r := Admit(w.router, session, bytes).0;
    if r == WithLane(w.router, session, lane).(nextInputSeq := r.nextInputSeq) {
      RefusedKeeps(w, session, r.nextInputSeq);
    } else {
      assert r == WithLane(w.router, session, Queued(lane, n, bytes)).(nextInputSeq := n);
      QueuedKeeps(w, session, bytes);
    }
  }

  lemma QueuedKeeps(w: World, session: Session, bytes: seq<Byte>)
    requires Inv(w) && HasRoom(LaneOf(w.router, session), bytes)
    ensures var n := w.router.nextInputSeq + 1;
      Inv(w.(router := WithLane(w.router, session, Queued(LaneOf(w.router, session), n, bytes)).(nextInputSeq := n)))
  {
    var lane := LaneOf(w.router, session);
    var n := w.router.nextInputSeq + 1;
    LaneFacts(w, session);
    PushKeeps(lane, n, bytes);
    FreshKeeps(w, session, Queued(lane, n, bytes), n);
  }

  lemma SettleAllKeeps(w: World, gone: set<nat>)
    requires Inv(w)
    ensures Inv(w.(router := SettleAll(w.router, gone)))
  {
    forall s | s in w.router.lanes ensures Narrows(w.router.lanes[s], SettleIn(w.router.lanes[s], gone)) {
      SettleNarrows(w.router.lanes[s], gone);
    }
    NarrowKeeps(w, SettleAll(w.router, gone));
  }

  lemma ReclaimKeeps(w: World, session: Session, reclaimable: bool)
    requires Inv(w)
    ensures session in w.router.lanes ==>
      Inv(w.(router := WithLane(w.router, session, Reclaim(w.router.lanes[session], reclaimable))))
  {
    if session in w.router.lanes {
      LaneKeeps(w, session, Reclaim(w.router.lanes[session], reclaimable));
    }
  }

  lemma TypedKeeps(w: World, session: Session, bytes: seq<Byte>, destination: Option<Token>, reclaimable: bool)
    requires Inv(w)
    ensures Inv(Hand(w, session, TerminalInput(w.router, session, bytes, destination, reclaimable)))
  {
    var r := w.router;
    var reclaimed := if session in r.lanes then WithLane(r, session, Reclaim(r.lanes[session], reclaimable)) else r;
    var w1 := w.(router := reclaimed);
    ReclaimKeeps(w, session, reclaimable);
    AdmitKeeps(w1, session, bytes);
    var (admitted, n) := Admit(reclaimed, session, bytes);
    var w2 := w.(router := admitted);
    if n.None? || IsHolding(LaneOf(admitted, session)) {
      assert Hand(w, session, (admitted, [])).wires == w.wires;
    } else if destination.None? {
      SettleAllKeeps(w2, {n.value});
      assert Hand(w, session, (SettleAll(admitted, {n.value}), [])).wires == w.wires;
    } else {
      DispatchKeeps(w2, session, destination.value);
    }
  }

  lemma RequeueNarrows(lane: Lane, n: nat)
    requires Accounted(lane)
    ensures var after := Requeue(lane, n);
      && Accounted(after) && Seqs(after.pending) <= Seqs(lane.pending)
      && Unstarted(after.pending) <= Unstarted(lane.pending) + {n}
  {
    SetPhaseNarrows(lane.(epochToken := None), Blocked);
    var blocked := if lane.phase.Sending? then ForgetRoute(lane) else lane;
    UnsendKeeps(blocked.pending, n);
  }

  /** Some other hand-over of the batch is not known to have been refused unwritten. */
  ghost predicate OpenElsewhere(wires: seq<Wire>, k: nat)
    requires k < |wires|
  {
    exists j :: 0 <= j < |wires| && j != k && wires[j].send.inputSeq == wires[k].send.inputSeq && !Retired(wires[j])
  }

  function Told(wires: seq<Wire>, k: nat): seq<Wire>
    requires k < |wires|
  {
    wires[k := wires[k].(delivered := true)]
  }

  /** Marking an answer as delivered keeps the invariant. */
  lemma TellKeeps(w: World, k: nat)
    requires Inv(w) && MayAnswer(w, k)
    ensures Inv(w.(wires := Told(w.wires, k)))
    ensures w.wires[k].send.token.transport.SyncSocket? && w.wires[k].verdict.value.outcome.RouteChanged? ==>
      (AllRetired(Told(w.wires, k), w.wires[k].send.inputSeq) <==> !OpenElsewhere(w.wires, k))
  {
    var wires := Told(w.wires, k);
    assert forall i :: 0 <= i < |wires| && i != k ==> wires[i] == w.wires[i];
    assert forall i :: 0 <= i < |wires| && Retired(w.wires[i]) ==> Retired(wires[i]);
    forall n | AllRetired(w.wires, n) ensures AllRetired(wires, n) {
    }
    if w.wires[k].send.token.transport.SyncSocket? && w.wires[k].verdict.value.outcome.RouteChanged? {
      assert Retired(wires[k]);
      if OpenElsewhere(w.wires, k) {
        var j :| 0 <= j < |w.wires| && j != k && w.wires[j].send.inputSeq == w.wires[k].send.inputSeq &&
          !Retired(w.wires[j]);
        assert wires[j] == w.wires[j];
      }
    }
  }

  /** The refusal takes the batch back, and the lane holds it for another route. */
  predicate PutsBack(r: Router, session: Session, n: nat, outcome: Outcome, directRoute: bool, reclaimable: bool) {
    && session in r.lanes && !directRoute && outcome.RouteChanged? && Requeues(r.lanes[session], n)
    && IsHolding(Reclaim(Requeue(r.lanes[session], n), reclaimable))
  }

  /** Whatever a result does to the lane but put the batch back, it unsends nothing. */
  lemma SettledAfterRequeueNarrows(lane: Lane, n: nat, reclaimable: bool)
    requires Accounted(lane)
    ensures Narrows(lane, SettleIn(Reclaim(Requeue(lane, n), reclaimable), {n}))
    ensures n !in Seqs(Requeue(lane, n).pending) ==> Narrows(lane, Reclaim(Requeue(lane, n), reclaimable))
  {
    var requeued := Reclaim(Requeue(lane, n), reclaimable);
    RequeueNarrows(lane, n);
    SettleNarrows(requeued, {n});
    WithoutUnstarted(requeued.pending, {n});
    UnstartedArePending(requeued.pending);
  }

  lemma NotPendingIsNotHeld(pending: seq<Pending>, n: nat)
    requires forall i :: 0 <= i < |pending| ==> pending[i].inputSeq != n
    ensures n !in Seqs(pending)
  {
    if pending != [] { NotPendingIsNotHeld(pending[..|pending| - 1], n); }
  }

  /** A refusal that is taken back and then settled, because no route will be claimed. */
  lemma MovedResultKeeps(w: World, session: Session, n: nat, reclaimable: bool, destination: Option<Token>)
    requires Inv(w) && session in w.router.lanes
    ensures var r' := WithLane(w.router, session, Reclaim(Requeue(w.router.lanes[session], n), reclaimable));
      && (!IsPending(r', n) ==> Inv(w.(router := r')))
      && Inv(Hand(w, session, SendQueued(SettleAll(r', {n}), session, destination)))
  {
    var lane := w.router.lanes[session];
    var requeued := Reclaim(Requeue(lane, n), reclaimable);
    var r' := WithLane(w.router, session, requeued);
    SettledAfterRequeueNarrows(lane, n, reclaimable);
    if !IsPending(r', n) {
      assert !IsPendingIn(r'.lanes[session], n);
      NotPendingIsNotHeld(requeued.pending, n);
      LaneKeeps(w, session, requeued);
    }
    var settled := SettleAll(r', {n});
    forall s | s in settled.lanes ensures Narrows(LaneOf(w.router, s), settled.lanes[s]) {
      if s != session { SettleNarrows(w.router.lanes[s], {n}); }
    }
    NarrowKeeps(w, settled);
    QueueKeeps(w.(router := settled), session, destination);
  }

  lemma ResultKeeps(w: World, session: Session, n: nat, outcome: Outcome, directRoute: bool, reclaimable: bool,
      destination: Option<Token>)
    requires Inv(w) && (PutsBack(w.router, session, n, outcome, directRoute, reclaimable) ==> AllRetired(w.wires, n))
    ensures Inv(Hand(w, session, InputResult(w.router, session, n, outcome, directRoute, reclaimable, destination)))
  {
    var r := w.router;
    var moved := session in r.lanes && !directRoute && outcome.RouteChanged? && Requeues(r.lanes[session], n);
    if PutsBack(r, session, n, outcome, directRoute, reclaimable) {
      RequeueKeeps(w, session, n, reclaimable);
      HandNothing(w, session, WithLane(r, session, Reclaim(Requeue(r.lanes[session], n), reclaimable)));
    } else if moved {
      MovedResultKeeps(w, session, n, reclaimable, destination);
      HandNothing(w, session, WithLane(r, session, Reclaim(Requeue(r.lanes[session], n), reclaimable)));
    } else {
      HandNothing(w, session, r);
      SettleAllKeeps(w, {n});
      QueueKeeps(w.(router := SettleAll(r, {n})), session, destination);
    }
  }

  lemma HandNothing(w: World, session: Session, r: Router)
    ensures Hand(w, session, (r, [])) == w.(router := r)
  {
    assert Hand(w, session, (r, [])).wires == w.wires;
  }

  lemma ReplacedLanesOk(r: Router, session: Session, lane: Lane)
    requires LanesOk(r) && session in r.lanes && Accounted(lane) && Seqs(lane.pending) <= Seqs(r.lanes[session].pending)
    ensures LanesOk(WithLane(r, session, lane))
  {
    var r' := WithLane(r, session, lane);
    forall s, t | s in r'.lanes && t in r'.lanes && s != t
      ensures Seqs(r'.lanes[s].pending) !! Seqs(r'.lanes[t].pending) {
      assert Seqs(r.lanes[s].pending) !! Seqs(r.lanes[t].pending);
    }
  }

  lemma RequeueKeeps(w: World, session: Session, n: nat, reclaimable: bool)
    requires Inv(w) && session in w.router.lanes && AllRetired(w.wires, n)
    ensures Inv(w.(router := WithLane(w.router, session, Reclaim(Requeue(w.router.lanes[session], n), reclaimable))))
  {
    RequeueNarrows(w.router.lanes[session], n);
    ReplacedLanesOk(w.router, session, Reclaim(Requeue(w.router.lanes[session], n), reclaimable));
  }

  /** The step puts a batch back unsent while another hand-over of it may still be written. */
  ghost predicate RequeuesOpen(w: World, e: Event) {
    && e.Answered? && MayAnswer(w, e.wire)
    && var wire := w.wires[e.wire];
      && wire.send.token.transport.SyncSocket? && OpenElsewhere(w.wires, e.wire)
      && PutsBack(w.router, wire.session, wire.send.inputSeq, wire.verdict.value.outcome, e.directRoute, e.reclaimable)
  }

  lemma DirectResultKeeps(w: World, session: Session, n: nat, token: Token, destination: Option<Token>)
    requires Inv(w)
    ensures Inv(Hand(w, session, DirectResult(w.router, session, n, token, destination)))
  {
    HandNothing(w, session, w.router);
    if session in w.router.lanes {
      var settled := SettleIn(w.router.lanes[session], {n});
      SettleNarrows(w.router.lanes[session], {n});
      LaneKeeps(w, session, settled);
      QueueKeeps(w.(router := WithLane(w.router, session, settled)), session, destination);
    }
  }

  lemma AnsweredKeeps(w: World, k: nat, directRoute: bool, reclaimable: bool, destination: Option<Token>)
    requires Inv(w) && !RequeuesOpen(w, Answered(k, directRoute, reclaimable, destination))
    ensures Inv(Step(w, Answered(k, directRoute, reclaimable, destination)))
  {
    if MayAnswer(w, k) {
      TellKeeps(w, k);
      var wire := w.wires[k];
      var told := w.(wires := Told(w.wires, k));
      if wire.send.token.transport.SyncSocket? {
        ResultKeeps(told, wire.session, wire.send.inputSeq, wire.verdict.value.outcome, directRoute, reclaimable,
          destination);
      } else {
        DirectResultKeeps(told, wire.session, wire.send.inputSeq, wire.send.token, destination);
      }
    }
  }

  lemma RetireKeeps(w: World, retired: Token -> bool)
    requires Inv(w)
    ensures Inv(w.(router := RetireFenced(w.router, retired)))
  {
    var r := RetireFenced(w.router, retired);
    forall s | s in r.lanes ensures Narrows(LaneOf(w.router, s), r.lanes[s]) {
      SettleNarrows(w.router.lanes[s],
        Select(w.router.lanes[s].pending, (p: Pending) => p.fence.Some? && retired(p.fence.value)));
    }
    NarrowKeeps(w, r);
  }

  lemma BlockSocketKeeps(w: World, generation: nat)
    requires Inv(w)
    ensures Inv(w.(router := BlockRoutesOnSyncSocket(w.router, generation)))
  {
    var r := BlockRoutesOnSyncSocket(w.router, generation);
    forall s | s in r.lanes ensures Narrows(LaneOf(w.router, s), r.lanes[s]) {
      SetPhaseNarrows(w.router.lanes[s].(epochToken := None), Blocked);
    }
    NarrowKeeps(w, r);
  }

  lemma SweepKeeps(w: World, due: set<nat>, started: bool)
    requires Inv(w)
    ensures Inv(w.(router := Sweep(w.router, due, started)))
  {
    var r := Sweep(w.router, due, started);
    forall s | s in r.lanes ensures Narrows(LaneOf(w.router, s), r.lanes[s]) {
      var lane := w.router.lanes[s];
      SettleNarrows(lane, Select(lane.pending, (p: Pending) => p.inputSeq in due && p.started));
      SettleNarrows(lane, Select(lane.pending, (p: Pending) => p.inputSeq in due && !p.started));
    }
    NarrowKeeps(w, r);
  }

  lemma ReleaseKeeps(w: World, session: Session, route: Token)
    requires Inv(w)
    ensures Inv(Hand(w, session, Release(w.router, session, route)))
  {
    BlockKeeps(w, session);
    assert Hand(w, session, (w.router, [])) == w;
    assert Hand(w, session, (BlockLane(w.router, session), [])) == w.(router := BlockLane(w.router, session));
    if session in w.router.lanes {
      var lane := w.router.lanes[session].(phase := Sending);
      LaneKeeps(w, session, lane);
      DispatchKeeps(w.(router := WithLane(w.router, session, lane)), session, route);
    }
  }

  lemma BlockKeeps(w: World, session: Session)
    requires Inv(w)
    ensures Inv(w.(router := BlockLane(w.router, session)))
  {
    if session in w.router.lanes {
      SetPhaseNarrows(w.router.lanes[session], Blocked);
      LaneKeeps(w, session, SetPhase(w.router.lanes[session], Blocked));
    }
  }

  lemma SocketClosedKeeps(w: World, generation: nat)
    requires Inv(w)
    ensures Inv(Step(w, SyncSocketClosed(generation)))
  {
    var retired := (t: Token) => t.transport.SyncSocket? && t.socketGeneration == generation;
    RetireKeeps(w, retired);
    BlockSocketKeeps(w.(router := RetireFenced(w.router, retired)), generation);
  }

  /** A change of phase or epoch alone narrows nothing away. */
  lemma PhaseKeeps(w: World, session: Session, lane: Lane)
    requires Inv(w) && lane.pending == LaneOf(w.router, session).pending &&
      lane.pendingBytes == LaneOf(w.router, session).pendingBytes
    ensures Inv(w.(router := WithLane(w.router, session, lane)))
  {
    LaneKeeps(w, session, lane);
  }

  lemma ClosedKeeps(w: World, session: Session)
    requires Inv(w)
    ensures Inv(w.(router := WithLane(w.router, session, SetPhase(LaneOf(w.router, session), Closed))))
  {
    SetPhaseNarrows(LaneOf(w.router, session), Closed);
    LaneKeeps(w, session, SetPhase(LaneOf(w.router, session), Closed));
  }

  lemma HoldKeeps(w: World, session: Session)
    requires Inv(w)
    ensures Inv(w.(router := Hold(w.router, session)))
  {
    var lane := LaneOf(w.router, session);
    PhaseKeeps(w, session, if lane.phase.Closed? then lane else lane.(phase := Holding));
  }

  lemma ClaimKeeps(w: World, session: Session, exhausted: bool)
    requires Inv(w)
    ensures Inv(w.(router := Claim(w.router, session, exhausted)))
  {
    PhaseKeeps(w, session,
      LaneOf(w.router, session).(required := true, epochToken := None,
        phase := if exhausted then Blocked else Claiming));
  }

  lemma ClaimAnsweredKeeps(w: World, session: Session, accepted: Option<Token>)
    requires Inv(w)
    ensures Inv(w.(router := ClaimAnswered(w.router, session, accepted)))
  {
    if session in w.router.lanes {
      var lane := w.router.lanes[session].(phase := Holding);
      PhaseKeeps(w, session, if accepted.Some? then lane.(epochToken := accepted) else lane);
    }
  }

  predicate IsRouteStep(e: Event) {
    || e.RouteHeld? || e.RouteClaimed? || e.RouteClaimAnswered? || e.RouteReleased? || e.RouteBlocked?
    || e.SessionClosed?
  }

  lemma RouteStepKeeps(w: World, e: Event)
    requires Inv(w) && IsRouteStep(e)
    ensures Inv(Step(w, e))
  {
    match e
    case RouteHeld(session) => HoldKeeps(w, session);
    case RouteClaimed(session, exhausted) => ClaimKeeps(w, session, exhausted);
    case RouteClaimAnswered(session, accepted) => ClaimAnsweredKeeps(w, session, accepted);
    case RouteReleased(session, route) => ReleaseKeeps(w, session, route);
    case RouteBlocked(session) => BlockKeeps(w, session);
    case SessionClosed(session) => ClosedKeeps(w, session);
  }

  lemma StepKeeps(w: World, e: Event)
    requires Inv(w) && !RequeuesOpen(w, e)
    ensures Inv(Step(w, e))
  {
    match e
    case Typed(session, bytes, destination, reclaimable) => TypedKeeps(w, session, bytes, destination, reclaimable);
    case WorkerHandles(k, verdict) => if MayHandle(w, k, verdict) { HandledKeeps(w, k, verdict); }
    case Answered(k, directRoute, reclaimable, destination) =>
      AnsweredKeeps(w, k, directRoute, reclaimable, destination);
    case QueueSent(session, destination) => QueueKeeps(w, session, destination);
    case TokenRetired(token) => RetireKeeps(w, (t: Token) => t == token);
    case SyncSocketClosed(generation) => SocketClosedKeeps(w, generation);
    case HeldExpired(expired) => SweepKeeps(w, expired, false);
    case ResultOverdue(overdue) => SweepKeeps(w, overdue, true);
    case _ => RouteStepKeeps(w, e);
  }

  lemma HandledKeeps(w: World, k: nat, verdict: Verdict)
    requires Inv(w) && MayHandle(w, k, verdict)
    ensures Inv(w.(wires := w.wires[k := w.wires[k].(verdict := Some(verdict))]))
  {
    var wires := w.wires[k := w.wires[k].(verdict := Some(verdict))];
    assert !Retired(w.wires[k]);
    forall n | AllRetired(w.wires, n) ensures AllRetired(wires, n) {
      assert w.wires[k].send.inputSeq != n;
    }
    assert forall j :: k < j < |w.wires| ==> w.wires[j].send.inputSeq != w.wires[k].send.inputSeq;
  }

}
