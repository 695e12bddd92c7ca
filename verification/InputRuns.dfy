/**
 Whole runs of the input handlers: lanes stay bounded in all of them, and no batch reaches a shell twice
 unless a refusal arrives for a hand-over that is no longer the batch's latest.
 */
module InputRuns {

  import opened Basics
  import opened InputRouting
  import opened InputProofs

  // ---------------------------------------------------------------------------------------------
  // Lanes, in every run
  // ---------------------------------------------------------------------------------------------

  /** What happens to the router does not depend on the wires; so its lanes stay as they should in any world. */
  lemma StepKeepsLanes(w: World, e: Event)
    requires LanesOk(w.router)
    ensures LanesOk(Step(w, e).router)
  {
    var bare := World(w.router, []);
    assert Inv(bare);
    if e.Answered? {
      if MayAnswer(w, e.wire) {
        var wire := w.wires[e.wire];
        if wire.send.token.transport.SyncSocket? {
          ResultKeeps(bare, wire.session, wire.send.inputSeq, wire.verdict.value.outcome, e.directRoute, e.reclaimable,
            e.destination);
        } else {
          DirectResultKeeps(bare, wire.session, wire.send.inputSeq, wire.send.token, e.destination);
        }
      }
    } else {
      StepKeeps(bare, e);
    }
  }

  lemma {:induction false} RunKeepsLanes(events: seq<Event>)
    ensures LanesOk(Run(INITIAL, events).router)
  {
    if events != [] {
      RunKeepsLanes(events[..|events| - 1]);
      StepKeepsLanes(Run(INITIAL, events[..|events| - 1]), events[|events| - 1]);
    }
  }

  /**
   In every reachable state a lane holds at most 200 batches and 256 KiB, with at most 8 in flight, in
   typing order.
   */
  lemma LanesStayBounded(events: seq<Event>, session: Session)
    requires session in Run(INITIAL, events).router.lanes
    ensures Accounted(Run(INITIAL, events).router.lanes[session])
  {
    RunKeepsLanes(events);
  }

  // ---------------------------------------------------------------------------------------------
  // Which runs keep an unsent batch safe to send
  // ---------------------------------------------------------------------------------------------

  /** No step of the run puts an open batch back. */
  ghost predicate NeverRequeuesOpen(events: seq<Event>) {
    if events == [] then true
    else
      var init, e := events[..|events| - 1], events[|events| - 1];
      NeverRequeuesOpen(init) && !RequeuesOpen(Run(INITIAL, init), e)
  }

  lemma {:induction false} PrefixNeverRequeuesOpen(events: seq<Event>, k: nat)
    requires NeverRequeuesOpen(events) && k <= |events|
    ensures NeverRequeuesOpen(events[..k])
    decreases |events|
  {
    if k < |events| {
      PrefixNeverRequeuesOpen(events[..|events| - 1], k);
      assert events[..|events| - 1][..k] == events[..k];
    } else {
      assert events[..k] == events;
    }
  }

  lemma {:induction false} RunKeeps(events: seq<Event>)
    requires NeverRequeuesOpen(events)
    ensures Inv(Run(INITIAL, events))
  {
    if events != [] {
      RunKeeps(events[..|events| - 1]);
      StepKeeps(Run(INITIAL, events[..|events| - 1]), events[|events| - 1]);
    }
  }

  lemma {:induction false} SelectUnstarted(pending: seq<Pending>)
    ensures Select(pending, (p: Pending) => !p.started) == Unstarted(pending)
  {
    if pending != [] { SelectUnstarted(pending[..|pending| - 1]); }
  }

  /** A batch that has started is not also waiting unsent. */
  lemma {:induction false} StartedIsNotUnstarted(pending: seq<Pending>, i: nat)
    requires Sorted(pending) && i < |pending| && pending[i].started
    ensures pending[i].inputSeq in Seqs(pending) && pending[i].inputSeq !in Unstarted(pending)
  {
    var n := |pending| - 1;
    var init := pending[..n];
    UnstartedArePending(init);
    if i < n {
      StartedIsNotUnstarted(init, i);
      assert init[i] == pending[i];
    }
  }

  lemma RequeuedIsUnsent(lane: Lane, n: nat)
    requires Accounted(lane) && CarriedOnSync(lane, n)
    ensures n in Unstarted(Requeue(lane, n).pending)
  {
    var i :| 0 <= i < |lane.pending| && lane.pending[i].inputSeq == n && lane.pending[i].started;
    StartedIsNotUnstarted(lane.pending, i);
    SelectUnstarted(lane.pending);
    var cleared := lane.(epochToken := None, phase := Blocked);
    SettleNarrows(cleared, Select(cleared.pending, (p: Pending) => !p.started));
    var blocked := if lane.phase.Sending? then ForgetRoute(lane) else lane;
    assert n in Seqs(blocked.pending);
    UnsendKeeps(blocked.pending, n);
  }

  /** Such a step leaves a batch unsent whose other hand-over may still be written. */
  lemma RequeuesOpenIsUnsafe(w: World, e: Event)
    requires LanesOk(w.router) && RequeuesOpen(w, e)
    ensures !UnsentAreSafe(Step(w, e).router, Step(w, e).wires)
  {
    var k, wire := e.wire, w.wires[e.wire];
    var n, session := wire.send.inputSeq, wire.session;
    var lane := w.router.lanes[session];
    var requeued := Reclaim(Requeue(lane, n), e.reclaimable);
    var told := w.(wires := Told(w.wires, k));
    RequeuedIsUnsent(lane, n);
    HandNothing(told, session, WithLane(w.router, session, requeued));
    assert Step(w, e) == told.(router := WithLane(w.router, session, requeued));
    var j :| 0 <= j < |w.wires| && j != k && w.wires[j].send.inputSeq == n && !Retired(w.wires[j]);
    assert Step(w, e).wires[j] == w.wires[j];
    assert n in Unstarted(Step(w, e).router.lanes[session].pending) && !AllRetired(Step(w, e).wires, n);
  }

  /** At every moment, each unsent batch's hand-overs were all refused unwritten, as the client knows. */
  ghost predicate AlwaysSafeToSend(events: seq<Event>) {
    forall k :: 0 <= k <= |events| ==> SafeToSend(Run(INITIAL, events[..k]))
  }

  ghost predicate SafeToSend(w: World) {
    UnsentAreSafe(w.router, w.wires)
  }

  lemma {:induction false} SafeRunsNeverRequeueOpen(events: seq<Event>)
    requires AlwaysSafeToSend(events)
    ensures NeverRequeuesOpen(events)
  {
    if events != [] {
      var init, e := events[..|events| - 1], events[|events| - 1];
      forall k | 0 <= k <= |init| ensures SafeToSend(Run(INITIAL, init[..k])) { assert init[..k] == events[..k]; }
      SafeRunsNeverRequeueOpen(init);
      RunKeepsLanes(init);
      assert events[..|events|] == events && SafeToSend(Run(INITIAL, events[..|events|]));
      if RequeuesOpen(Run(INITIAL, init), e) { RequeuesOpenIsUnsafe(Run(INITIAL, init), e); }
    }
  }

  /**
   A batch only ever waits to be handed over when all its hand-overs were refused unwritten, if and
   only if no refusal puts a batch back while another hand-over of it is open.
   */
  lemma AlwaysSafeToSendIff(events: seq<Event>)
    ensures AlwaysSafeToSend(events) <==> NeverRequeuesOpen(events)
  {
    if AlwaysSafeToSend(events) { SafeRunsNeverRequeueOpen(events); }
    if NeverRequeuesOpen(events) {
      forall k | 0 <= k <= |events| ensures SafeToSend(Run(INITIAL, events[..k])) {
        PrefixNeverRequeuesOpen(events, k);
        RunKeeps(events[..k]);
      }
    }
  }

  // ---------------------------------------------------------------------------------------------
  // No batch twice
  // ---------------------------------------------------------------------------------------------

  /**
   A batch is handed to a transport again only after the worker refused its earlier Sync hand-over
   for a changed route without writing, and only after the client learned that.
   */
  lemma HandedAgainOnlyAfterRefusal(events: seq<Event>, i: nat, j: nat)
    requires NeverRequeuesOpen(events) && i < j < |Run(INITIAL, events).wires|
    requires Run(INITIAL, events).wires[i].send.inputSeq == Run(INITIAL, events).wires[j].send.inputSeq
    ensures Retired(Run(INITIAL, events).wires[i])
  {
    RunKeeps(events);
  }

  ghost predicate Wrote(wire: Wire) {
    wire.verdict.Some? && wire.verdict.value.wrote
  }

  /** No batch's bytes reach the PTY twice, in a run that puts no batch back while another hand-over of it is open. */
  lemma NoBatchIsWrittenTwice(events: seq<Event>, i: nat, j: nat)
    requires NeverRequeuesOpen(events)
    requires i < |Run(INITIAL, events).wires| && j < |Run(INITIAL, events).wires|
    requires Run(INITIAL, events).wires[i].send.inputSeq == Run(INITIAL, events).wires[j].send.inputSeq
    requires Wrote(Run(INITIAL, events).wires[i]) && Wrote(Run(INITIAL, events).wires[j])
    ensures i == j
  {
    RunKeeps(events);
  }

  /** The step delivers the answer to a hand-over for the first time, or answers none. */
  predicate AnswersFirst(w: World, e: Event) {
    e.Answered? && MayAnswer(w, e.wire) ==> !w.wires[e.wire].delivered
  }

  lemma FirstAnswerIsSafe(w: World, e: Event)
    requires Inv(w) && AnswersFirst(w, e)
    ensures !RequeuesOpen(w, e)
  {
    if e.Answered? && MayAnswer(w, e.wire) {
      assert !Retired(w.wires[e.wire]);
      var n := w.wires[e.wire].send.inputSeq;
      assert forall j :: 0 <= j < |w.wires| && j != e.wire && w.wires[j].send.inputSeq == n ==> j < e.wire;
    }
  }

  /** Carriers deliver each answer of the run at most once. */
  ghost predicate AnsweredOnce(events: seq<Event>) {
    if events == [] then true
    else
      var init, e := events[..|events| - 1], events[|events| - 1];
      AnsweredOnce(init) && AnswersFirst(Run(INITIAL, init), e)
  }

  /** Then no step puts an open batch back. */
  lemma {:induction false} AnsweredOnceIsEnough(events: seq<Event>)
    requires AnsweredOnce(events)
    ensures NeverRequeuesOpen(events)
  {
    if events != [] {
      var init, e := events[..|events| - 1], events[|events| - 1];
      AnsweredOnceIsEnough(init);
      RunKeeps(init);
      FirstAnswerIsSafe(Run(INITIAL, init), e);
    }
  }

  // ---------------------------------------------------------------------------------------------
  // A refusal delivered twice
  // ---------------------------------------------------------------------------------------------

  const SYNC := Token(1, 1, 1, SyncSocket, None)
  const REFUSED := Verdict(RouteChanged, false)
  const WRITTEN := Verdict(Accepted, true)

  /** One batch in a lane, as it waits or as it is in flight. */
  function OneBatch(phase: Phase, fence: Option<Token>): Lane {
    Lane(phase, [Pending(1, [0], fence, fence.Some?)], 1, None, false)
  }

  function OneLane(session: Session, lane: Lane, wires: seq<Wire>): World {
    World(Router(map[session := lane], 1), wires)
  }

  function OneWire(session: Session, verdict: Option<Verdict>, delivered: bool): Wire {
    Wire(session, Send(1, SYNC), verdict, delivered)
  }

  lemma OneStartable(phase: Phase, token: Token)
    ensures Startable(OneBatch(Sending, None)) == [1]
    ensures MarkAll(OneBatch(phase, None).pending, [1], token) == OneBatch(phase, Some(token)).pending
    ensures SendsOf([1], token) == [Send(1, token)]
  {
    var waiting := OneBatch(Sending, None).pending;
    assert waiting[..0] == [] && OneBatch(phase, None).pending[..0] == [];
    assert StartedCount(waiting) == 0;
    assert FirstUnstarted([], 8) == [];
    assert FirstUnstarted(waiting, 8) == [1];
  }

  lemma OneTyped(session: Session)
    ensures Step(INITIAL, Typed(session, [0], Some(SYNC), true)) ==
      OneLane(session, OneBatch(Sending, Some(SYNC)), [OneWire(session, None, false)])
  {
    OneStartable(Sending, SYNC);
    var w := Step(INITIAL, Typed(session, [0], Some(SYNC), true));
    var admitted := Admit(INITIAL.router, session, [0]);
    assert admitted.0.lanes == map[session := OneBatch(Sending, None)];
    assert w.router.lanes == map[session := OneBatch(Sending, Some(SYNC))];
    assert w.wires == [OneWire(session, None, false)];
  }

  /** The refusal of any hand-over of a batch that Sync carries takes it back, whatever else the lane holds. */
  lemma RefusalPutsBack(session: Session, lane: Lane, next: nat, wires: seq<Wire>, k: nat)
    requires IsRefusal(session, wires, k) && Requeues(lane, 1) && IsHolding(Reclaim(Requeue(lane, 1), true))
    ensures Step(World(Router(map[session := lane], next), wires), Answered(k, false, true, Some(SYNC))) ==
      World(Router(map[session := Reclaim(Requeue(lane, 1), true)], next), Told(wires, k))
  {
    var r, requeued := Router(map[session := lane], next), Reclaim(Requeue(lane, 1), true);
    assert WithLane(r, session, requeued).lanes == map[session := requeued];
    HandNothing(World(r, Told(wires, k)), session, WithLane(r, session, requeued));
  }

  ghost predicate IsRefusal(session: Session, wires: seq<Wire>, k: nat) {
    && k < |wires| && wires[k].session == session && wires[k].send == Send(1, SYNC)
    && wires[k].verdict == Some(REFUSED)
  }

  lemma NothingUnsent(p: Pending)
    requires p.started
    ensures Select([p], (q: Pending) => !q.started) == {} && Without([p], {}) == [p]
  {
    assert [p][..0] == [];
  }

  lemma UnsendOne(p: Pending)
    ensures Unsend([p], p.inputSeq) == [p.(started := false, fence := None)]
  {
    assert [p][..0] == [];
  }

  lemma OneRequeued()
    ensures Requeue(OneBatch(Sending, Some(SYNC)), 1) == OneBatch(Blocked, None)
  {
    var lane := OneBatch(Sending, Some(SYNC));
    NothingUnsent(lane.pending[0]);
    UnsendOne(lane.pending[0]);
    assert ForgetRoute(lane) == lane.(phase := Blocked);
  }

  /** The refusal of the first hand-over takes the batch back, whichever hand-over of it is in flight. */
  lemma OneRefused(session: Session, wires: seq<Wire>, k: nat)
    requires IsRefusal(session, wires, k)
    ensures Step(OneLane(session, OneBatch(Sending, Some(SYNC)), wires), Answered(k, false, true, Some(SYNC))) ==
      OneLane(session, OneBatch(Holding, None), Told(wires, k))
  {
    var lane := OneBatch(Sending, Some(SYNC));
    assert lane.pending[0].inputSeq == 1 && CarriedOnSync(lane, 1);
    OneRequeued();
    RefusalPutsBack(session, lane, 1, wires, k);
  }

  lemma OneReleased(session: Session, wires: seq<Wire>)
    ensures Step(OneLane(session, OneBatch(Holding, None), wires), RouteReleased(session, SYNC)) ==
      OneLane(session, OneBatch(Sending, Some(SYNC)), wires + [OneWire(session, None, false)])
  {
    OneStartable(Sending, SYNC);
    var w := Step(OneLane(session, OneBatch(Holding, None), wires), RouteReleased(session, SYNC));
    assert w.router.lanes == map[session := OneBatch(Sending, Some(SYNC))];
    assert w.wires == wires + [OneWire(session, None, false)];
  }

  function RepeatedRefusal(session: Session): seq<Event> {
    [Typed(session, [0], Some(SYNC), true)] + [WorkerHandles(0, REFUSED)] + [Answered(0, false, true, Some(SYNC))] +
    [RouteReleased(session, SYNC)] + [Answered(0, false, true, Some(SYNC))] + [WorkerHandles(1, WRITTEN)] +
    [RouteReleased(session, SYNC)] + [WorkerHandles(2, WRITTEN)]
  }

  lemma RunOneMore(events: seq<Event>, e: Event)
    ensures Run(INITIAL, events + [e]) == Step(Run(INITIAL, events), e)
  {
    assert (events + [e])[..|events|] == events;
  }

  lemma Follows(events: seq<Event>, e: Event, w: World, next: World)
    requires Run(INITIAL, events) == w && Step(w, e) == next
    ensures Run(INITIAL, events + [e]) == next
  {
    RunOneMore(events, e);
  }

  lemma OneHandled(session: Session, lane: Lane, wires: seq<Wire>, k: nat, verdict: Verdict)
    requires k < |wires| && wires[k] == OneWire(session, None, false)
    requires verdict.outcome.RouteChanged? ==> !verdict.wrote
    ensures Step(OneLane(session, lane, wires), WorkerHandles(k, verdict)) ==
      OneLane(session, lane, wires[k := OneWire(session, Some(verdict), false)])
  {
  }

  /** Refused, told, and handed over again. */
  lemma FirstRefusal(session: Session)
    ensures var events := [Typed(session, [0], Some(SYNC), true)] + [WorkerHandles(0, REFUSED)] +
        [Answered(0, false, true, Some(SYNC))] + [RouteReleased(session, SYNC)];
      Run(INITIAL, events) ==
        OneLane(session, OneBatch(Sending, Some(SYNC)),
          [OneWire(session, Some(REFUSED), true), OneWire(session, None, false)])
  {
    var typed, again, released :=
      Typed(session, [0], Some(SYNC), true), Answered(0, false, true, Some(SYNC)), RouteReleased(session, SYNC);
    var flying, held := OneBatch(Sending, Some(SYNC)), OneBatch(Holding, None);
    var sent, judged, told :=
      OneWire(session, None, false), OneWire(session, Some(REFUSED), false), OneWire(session, Some(REFUSED), true);
    var e1 := [typed];
    var e2 := e1 + [WorkerHandles(0, REFUSED)];
    var e3 := e2 + [again];
    OneTyped(session);
    OneHandled(session, flying, [sent], 0, REFUSED);
    assert [sent][0 := judged] == [judged] && Told([judged], 0) == [told] && [told] + [sent] == [told, sent];
    OneRefused(session, [judged], 0);
    OneReleased(session, [told]);
    Follows([], typed, INITIAL, OneLane(session, flying, [sent]));
    assert [] + [typed] == e1;
    Follows(e1, WorkerHandles(0, REFUSED), OneLane(session, flying, [sent]), OneLane(session, flying, [judged]));
    Follows(e2, again, OneLane(session, flying, [judged]), OneLane(session, held, [told]));
    Follows(e3, released, OneLane(session, held, [told]), OneLane(session, flying, [told, sent]));
  }

  /** Told again, written after all, and handed over and written once more. */
  lemma SecondTelling(session: Session, events: seq<Event>)
    requires Run(INITIAL, events) ==
      OneLane(session, OneBatch(Sending, Some(SYNC)),
        [OneWire(session, Some(REFUSED), true), OneWire(session, None, false)])
    ensures var all := events + [Answered(0, false, true, Some(SYNC))] + [WorkerHandles(1, WRITTEN)] +
        [RouteReleased(session, SYNC)] + [WorkerHandles(2, WRITTEN)];
      Run(INITIAL, all) == OneLane(session, OneBatch(Sending, Some(SYNC)),
        [OneWire(session, Some(REFUSED), true), OneWire(session, Some(WRITTEN), false),
          OneWire(session, Some(WRITTEN), false)])
  {
    var refused, sent := OneWire(session, Some(REFUSED), true), OneWire(session, None, false);
    var written := OneWire(session, Some(WRITTEN), false);
    var held, flying := OneBatch(Holding, None), OneBatch(Sending, Some(SYNC));
    var e1 := events + [Answered(0, false, true, Some(SYNC))];
    var e2 := e1 + [WorkerHandles(1, WRITTEN)];
    var e3 := e2 + [RouteReleased(session, SYNC)];
    OneRefused(session, [refused, sent], 0);
    assert Told([refused, sent], 0) == [refused, sent];
    OneHandled(session, held, [refused, sent], 1, WRITTEN);
    assert [refused, sent][1 := written] == [refused, written];
    OneReleased(session, [refused, written]);
    assert [refused, written] + [sent] == [refused, written, sent];
    OneHandled(session, flying, [refused, written, sent], 2, WRITTEN);
    assert [refused, written, sent][2 := written] == [refused, written, written];
    Follows(events, Answered(0, false, true, Some(SYNC)), OneLane(session, flying, [refused, sent]),
      OneLane(session, held, [refused, sent]));
    Follows(e1, WorkerHandles(1, WRITTEN), OneLane(session, held, [refused, sent]),
      OneLane(session, held, [refused, written]));
    Follows(e2, RouteReleased(session, SYNC), OneLane(session, held, [refused, written]),
      OneLane(session, flying, [refused, written, sent]));
    Follows(e3, WorkerHandles(2, WRITTEN), OneLane(session, flying, [refused, written, sent]),
      OneLane(session, flying, [refused, written, written]));
  }

  /**
   When the same refusal is delivered again after the batch went out again, the batch is taken back
   from a worker that then writes it, and is handed over a third time and written again.
   */
  lemma RepeatedRefusalWritesTwice(session: Session)
    ensures var wires := Run(INITIAL, RepeatedRefusal(session)).wires;
      && |wires| == 3 && wires[1].send == wires[2].send == Send(1, SYNC)
      && Wrote(wires[1]) && Wrote(wires[2])
  {
    var first := [Typed(session, [0], Some(SYNC), true)] + [WorkerHandles(0, REFUSED)] +
      [Answered(0, false, true, Some(SYNC))] + [RouteReleased(session, SYNC)];
    FirstRefusal(session);
    SecondTelling(session, first);
  }

  // ---------------------------------------------------------------------------------------------
  // A refusal behind a full window
  // ---------------------------------------------------------------------------------------------

  /**
   Putting a refused batch back only unsends it when nothing else of the lane was still queued: a
   sending lane that had filled its in-flight window blocks and refuses everything behind it.
   */
  lemma RequeueOnlyUnsendsIff(lane: Lane, n: nat)
    ensures Seqs(Requeue(lane, n).pending) == Seqs(lane.pending) <==>
      !lane.phase.Sending? || Unstarted(lane.pending) == {}
    ensures lane.phase.Sending? ==> Seqs(Requeue(lane, n).pending) == Seqs(lane.pending) - Unstarted(lane.pending)
  {
    var cleared := lane.(epochToken := None, phase := Blocked);
    SelectUnstarted(lane.pending);
    SettleNarrows(cleared, Select(cleared.pending, (p: Pending) => !p.started));
    var blocked := if lane.phase.Sending? then ForgetRoute(lane) else lane;
    UnsendKeeps(blocked.pending, n);
    UnstartedArePending(lane.pending);
  }

  /** The lane after `k` batches of one byte: the first eight are in flight. */
  function Window(k: nat): (pending: seq<Pending>)
    ensures |pending| == k
  {
    if k == 0 then []
    else
      Window(k - 1) +
      [Pending(k, [0], if k <= MAX_STARTED_INPUTS then Some(SYNC) else None, k <= MAX_STARTED_INPUTS)]
  }

  function InFlight(session: Session, k: nat): (wires: seq<Wire>)
    ensures |wires| == k
  {
    if k == 0 then [] else InFlight(session, k - 1) + [Wire(session, Send(k, SYNC), None, false)]
  }

  function FullLane(k: nat): Lane {
    Lane(Sending, Window(k), k, None, false)
  }

  function Burst(session: Session, k: nat): World {
    World(if k == 0 then Router(map[], 0) else Router(map[session := FullLane(k)], k),
          InFlight(session, if k <= MAX_STARTED_INPUTS then k else MAX_STARTED_INPUTS))
  }

  function Repeated(e: Event, k: nat): seq<Event> {
    if k == 0 then [] else Repeated(e, k - 1) + [e]
  }

  function TypedTimes(session: Session, k: nat): seq<Event> {
    Repeated(Typed(session, [0], Some(SYNC), true), k)
  }

  lemma WindowOneMore(k: nat)
    requires k > 0
    ensures Window(k)[..k - 1] == Window(k - 1)
    ensures Window(k)[k - 1] ==
      Pending(k, [0], if k <= MAX_STARTED_INPUTS then Some(SYNC) else None, k <= MAX_STARTED_INPUTS)
  {
  }

  lemma {:induction false} WindowCounts(k: nat)
    ensures StartedCount(Window(k)) == if k <= MAX_STARTED_INPUTS then k else MAX_STARTED_INPUTS
  {
    if k > 0 {
      WindowCounts(k - 1);
      WindowOneMore(k);
    }
  }

  lemma {:induction false} WindowHolds(k: nat)
    ensures Unstarted(Window(k)) == {} <==> k <= MAX_STARTED_INPUTS
    ensures k > MAX_STARTED_INPUTS ==> k in Unstarted(Window(k))
    ensures forall n :: n in Seqs(Window(k)) <==> 0 < n <= k
  {
    if k > 0 {
      WindowHolds(k - 1);
      WindowOneMore(k);
    }
  }

  lemma {:induction false} NoRoomStartsNone(pending: seq<Pending>)
    ensures FirstUnstarted(pending, 0) == []
  {
    if pending != [] { NoRoomStartsNone(pending[..|pending| - 1]); }
  }

  lemma {:induction false} AllStartedStartsNone(pending: seq<Pending>, room: nat)
    requires Unstarted(pending) == {}
    ensures FirstUnstarted(pending, room) == []
  {
    if pending != [] {
      var init, last := pending[..|pending| - 1], pending[|pending| - 1];
      assert last.inputSeq !in Unstarted(pending);
      AllStartedStartsNone(init, room);
    }
  }

  lemma {:induction false} MarkOthers(k: nat, n: nat)
    requires n > k
    ensures MarkAll(Window(k), [n], SYNC) == Window(k)
  {
    if k > 0 {
      MarkOthers(k - 1, n);
      assert Window(k)[..k - 1] == Window(k - 1);
    }
  }

  /** What the window has room for once batch `k + 1` waits behind `k`. */
  lemma NextStarts(k: nat)
    ensures var pending := Window(k) + [Pending(k + 1, [0], None, false)];
      var seqs := Startable(Lane(Sending, pending, k + 1, None, false));
      && seqs == (if k < MAX_STARTED_INPUTS then [k + 1] else [])
      && MarkAll(pending, seqs, SYNC) == Window(k + 1)
  {
    var last := Pending(k + 1, [0], None, false);
    var pending := Window(k) + [last];
    WindowCounts(k);
    CountOneMore(Window(k), last);
    if k < MAX_STARTED_INPUTS {
      WindowHolds(k);
      OneMoreStarts(Window(k), last, MAX_STARTED_INPUTS - k);
      MarkNext(k);
    } else {
      NoRoomStartsNone(pending);
      MarkNone(pending, SYNC);
    }
  }

  lemma CountOneMore(pending: seq<Pending>, last: Pending)
    requires !last.started
    ensures StartedCount(pending + [last]) == StartedCount(pending)
  {
    assert (pending + [last])[..|pending|] == pending;
  }

  /** Behind batches that are all in flight, the next one starts when there is room. */
  lemma OneMoreStarts(pending: seq<Pending>, last: Pending, room: nat)
    requires Unstarted(pending) == {} && !last.started && room > 0
    ensures FirstUnstarted(pending + [last], room) == [last.inputSeq]
  {
    assert (pending + [last])[..|pending|] == pending;
    AllStartedStartsNone(pending, room);
  }

  lemma MarkNext(k: nat)
    requires k < MAX_STARTED_INPUTS
    ensures MarkAll(Window(k) + [Pending(k + 1, [0], None, false)], [k + 1], SYNC) == Window(k + 1)
  {
    var last := Pending(k + 1, [0], None, false);
    assert (Window(k) + [last])[..k] == Window(k);
    MarkOthers(k, k + 1);
  }

  function Waiting(k: nat): Lane {
    Lane(Sending, Window(k) + [Pending(k + 1, [0], None, false)], k + 1, None, false)
  }

  lemma BurstAdmits(session: Session, k: nat)
    requires k < MAX_PENDING_INPUTS
    ensures Admit(Burst(session, k).router, session, [0]) == (Router(map[session := Waiting(k)], k + 1), Some(k + 1))
  {
    var r := Burst(session, k).router;
    assert LaneOf(r, session) == FullLane(k);
    assert WithLane(r, session, Waiting(k)).lanes == map[session := Waiting(k)];
  }

  lemma OnlyLaneDispatches(session: Session, lane: Lane, next: nat, seqs: seq<nat>, marked: seq<Pending>)
    requires Startable(lane) == seqs && MarkAll(lane.pending, seqs, SYNC) == marked
    ensures DispatchStartable(Router(map[session := lane], next), session, SYNC) ==
      (Router(map[session := lane.(pending := marked)], next), SendsOf(seqs, SYNC))
  {
    var r := Router(map[session := lane], next);
    assert WithLane(r, session, lane.(pending := marked)).lanes == map[session := lane.(pending := marked)];
  }

  lemma BurstDispatches(session: Session, k: nat)
    ensures DispatchStartable(Router(map[session := Waiting(k)], k + 1), session, SYNC) ==
      (Router(map[session := FullLane(k + 1)], k + 1), if k < MAX_STARTED_INPUTS then [Send(k + 1, SYNC)] else [])
  {
    NextStarts(k);
    var seqs := if k < MAX_STARTED_INPUTS then [k + 1] else [];
    OnlyLaneDispatches(session, Waiting(k), k + 1, seqs, Window(k + 1));
    assert SendsOf(seqs, SYNC) == if k < MAX_STARTED_INPUTS then [Send(k + 1, SYNC)] else [];
  }

  lemma BurstWires(session: Session, k: nat, r: Router)
    ensures Hand(Burst(session, k), session, (r, if k < MAX_STARTED_INPUTS then [Send(k + 1, SYNC)] else [])).wires ==
      Burst(session, k + 1).wires
  {
    if k >= MAX_STARTED_INPUTS { assert Burst(session, k).wires + [] == Burst(session, k).wires; }
  }

  lemma BurstReclaims(session: Session, k: nat)
    ensures var r := Burst(session, k).router;
      session in r.lanes ==> WithLane(r, session, Reclaim(r.lanes[session], true)) == r
  {
    var r := Burst(session, k).router;
    if session in r.lanes { assert r.lanes[session := r.lanes[session]] == r.lanes; }
  }

  lemma BurstStep(session: Session, k: nat)
    requires k < MAX_PENDING_INPUTS
    ensures Step(Burst(session, k), Typed(session, [0], Some(SYNC), true)) == Burst(session, k + 1)
  {
    BurstReclaims(session, k);
    BurstAdmits(session, k);
    BurstDispatches(session, k);
    BurstWires(session, k, Burst(session, k + 1).router);
  }

  /** An event repeated takes the run from state to state. */
  lemma {:induction false} KeepsUp(run: nat -> World, state: nat -> World, k: nat, bound: nat)
    requires k <= bound && run(0) == state(0)
    requires forall j :: 0 <= j < bound && run(j) == state(j) ==> run(j + 1) == state(j + 1)
    ensures run(k) == state(k)
  {
    if k > 0 {
      KeepsUp(run, state, k - 1, bound);
      assert run((k - 1) + 1) == state((k - 1) + 1);
    }
  }

  function Bursts(session: Session): nat -> World {
    (k: nat) => Burst(session, k)
  }

  function TypedRuns(session: Session): nat -> World {
    (k: nat) => Run(INITIAL, TypedTimes(session, k))
  }

  lemma BurstOneMore(session: Session, j: nat)
    requires j < MAX_PENDING_INPUTS && Run(INITIAL, TypedTimes(session, j)) == Burst(session, j)
    ensures Run(INITIAL, TypedTimes(session, j + 1)) == Burst(session, j + 1)
  {
    BurstStep(session, j);
    Follows(TypedTimes(session, j), Typed(session, [0], Some(SYNC), true), Burst(session, j), Burst(session, j + 1));
  }

  lemma BurstRuns(session: Session, k: nat)
    requires k <= MAX_PENDING_INPUTS
    ensures Run(INITIAL, TypedTimes(session, k)) == Burst(session, k)
  {
    var run, state := TypedRuns(session), Bursts(session);
    assert Burst(session, 0).wires == [];
    forall j | 0 <= j < MAX_PENDING_INPUTS && run(j) == state(j) ensures run(j + 1) == state(j + 1) {
      BurstOneMore(session, j);
    }
    KeepsUp(run, state, k, MAX_PENDING_INPUTS);
  }

  /** `k` batches typed on Sync, and the first refused for a changed route. */
  function RefusedBurst(session: Session, k: nat): seq<Event> {
    TypedTimes(session, k) + [WorkerHandles(0, REFUSED)] + [Answered(0, false, true, Some(SYNC))]
  }

  lemma {:induction false} InFlightAre(session: Session, k: nat, i: nat)
    requires i < k
    ensures InFlight(session, k)[i] == Wire(session, Send(i + 1, SYNC), None, false)
  {
    if i < k - 1 { InFlightAre(session, k - 1, i); }
  }

  lemma {:induction false} WindowStartsWith(k: nat)
    requires k > 0
    ensures Window(k)[0] == Pending(1, [0], Some(SYNC), true)
  {
    if k > 1 { WindowStartsWith(k - 1); }
  }

  /** The refusal of the first batch of a burst takes it back and leaves the lane holding. */
  lemma BurstRefused(session: Session, k: nat, wires: seq<Wire>)
    requires k > 0 && wires != [] && wires[0] == Wire(session, Send(1, SYNC), Some(REFUSED), false)
    ensures Step(World(Router(map[session := FullLane(k)], k), wires), Answered(0, false, true, Some(SYNC))) ==
      World(Router(map[session := Reclaim(Requeue(FullLane(k), 1), true)], k), Told(wires, 0))
  {
    var lane := FullLane(k);
    WindowStartsWith(k);
    assert lane.pending[0].inputSeq == 1 && CarriedOnSync(lane, 1);
    RefusalPutsBack(session, lane, k, wires, 0);
  }

  lemma BurstHandled(session: Session, k: nat)
    requires 0 < k <= MAX_PENDING_INPUTS
    ensures var wires := Burst(session, k).wires;
      && wires != [] && wires[0] == Wire(session, Send(1, SYNC), None, false)
      && Run(INITIAL, TypedTimes(session, k) + [WorkerHandles(0, REFUSED)]) ==
           World(Router(map[session := FullLane(k)], k), wires[0 := wires[0].(verdict := Some(REFUSED))])
  {
    BurstRuns(session, k);
    RunOneMore(TypedTimes(session, k), WorkerHandles(0, REFUSED));
    InFlightAre(session, if k <= MAX_STARTED_INPUTS then k else MAX_STARTED_INPUTS, 0);
  }

  lemma BurstSendsEight(session: Session, k: nat, i: nat)
    requires i < |Burst(session, k).wires|
    ensures Burst(session, k).wires[i].send.inputSeq <= MAX_STARTED_INPUTS
  {
    InFlightAre(session, |Burst(session, k).wires|, i);
  }

  lemma RefusedBurstLane(session: Session, k: nat)
    requires 0 < k <= MAX_PENDING_INPUTS
    ensures var w := Run(INITIAL, RefusedBurst(session, k));
      && w.router.lanes == map[session := Reclaim(Requeue(FullLane(k), 1), true)]
      && forall i :: 0 <= i < |w.wires| ==> w.wires[i].send.inputSeq <= MAX_STARTED_INPUTS
  {
    var wires := Burst(session, k).wires;
    BurstHandled(session, k);
    var handled := wires[0 := wires[0].(verdict := Some(REFUSED))];
    BurstRefused(session, k, handled);
    Follows(TypedTimes(session, k) + [WorkerHandles(0, REFUSED)], Answered(0, false, true, Some(SYNC)),
            World(Router(map[session := FullLane(k)], k), handled),
            World(Router(map[session := Reclaim(Requeue(FullLane(k), 1), true)], k), Told(handled, 0)));
    forall i: nat | i < |wires|
      ensures Told(handled, 0)[i].send.inputSeq <= MAX_STARTED_INPUTS { BurstSendsEight(session, k, i); }
  }

  /**
   When the first of `k` typed batches is refused, the others all stay in the lane if and only if no
   more than eight were typed. The ninth and later are gone, and were never handed over.
   */
  lemma RefusalKeepsTheRestIff(session: Session, k: nat)
    requires 0 < k <= MAX_PENDING_INPUTS
    ensures var w := Run(INITIAL, RefusedBurst(session, k));
      && session in w.router.lanes
      && ((forall n :: 0 < n <= k ==> n in Seqs(w.router.lanes[session].pending)) <==> k <= MAX_STARTED_INPUTS)
      && (k > MAX_STARTED_INPUTS ==> k !in Seqs(w.router.lanes[session].pending))
      && (forall i :: 0 <= i < |w.wires| ==> w.wires[i].send.inputSeq <= MAX_STARTED_INPUTS)
  {
    RefusedBurstLane(session, k);
    RequeueOnlyUnsendsIff(FullLane(k), 1);
    WindowHolds(k);
  }

}
