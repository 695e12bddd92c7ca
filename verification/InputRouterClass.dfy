/** The input router as the client core drives it: lanes updated in place, hand-overs pushed out. */
module InputRouterClass {

  import opened Basics
  import opened InputRouting

  /** Marking one more batch after a prefix of them. */
  lemma {:induction false} MarkOneMore(pending: seq<Pending>, seqs: seq<nat>, i: nat, token: Token)
    requires i < |seqs|
    ensures MarkAll(MarkAll(pending, seqs[..i], token), [seqs[i]], token) == MarkAll(pending, seqs[..i + 1], token)
  {
    if pending != [] {
      var init, last := pending[..|pending| - 1], pending[|pending| - 1];
      var next := if last.inputSeq in seqs[..i] then MarkStarted(last, token) else last;
      MarkOneMore(init, seqs, i, token);
      assert pending == init + [last];
      MarkAppend(init, last, seqs[..i], token);
      MarkAppend(MarkAll(init, seqs[..i], token), next, [seqs[i]], token);
      MarkAppend(init, last, seqs[..i + 1], token);
      assert seqs[..i + 1] == seqs[..i] + [seqs[i]];
    }
  }

  lemma MarkAppend(init: seq<Pending>, last: Pending, seqs: seq<nat>, token: Token)
    ensures MarkAll(init + [last], seqs, token) ==
      MarkAll(init, seqs, token) + [if last.inputSeq in seqs then MarkStarted(last, token) else last]
  {
    assert (init + [last])[..|init|] == init;
  }

  lemma {:induction false} WithoutHolds(pending: seq<Pending>, n: nat, m: nat)
    ensures (exists p :: p in Without(pending, {n}) && p.inputSeq == m) <==>
      m != n && exists p :: p in pending && p.inputSeq == m
  {
    if pending != [] {
      var init, last := pending[..|pending| - 1], pending[|pending| - 1];
      WithoutHolds(init, n, m);
      assert pending == init + [last];
      assert forall p :: p in pending <==> p in init || p == last;
      assert forall p :: p in Without(pending, {n}) <==> p in Without(init, {n}) || (last.inputSeq != n && p == last);
    }
  }

  lemma PendingInIff(lane: Lane, n: nat)
    ensures IsPendingIn(lane, n) <==> exists p :: p in lane.pending && p.inputSeq == n
  {
    if p :| p in lane.pending && p.inputSeq == n {
      var i :| 0 <= i < |lane.pending| && lane.pending[i] == p;
    }
    if i :| 0 <= i < |lane.pending| && lane.pending[i].inputSeq == n { assert lane.pending[i] in lane.pending; }
  }

  lemma SettledIsGone(lane: Lane, n: nat, m: nat)
    ensures IsPendingIn(SettleIn(lane, {n}), m) <==> m != n && IsPendingIn(lane, m)
  {
    WithoutHolds(lane.pending, n, m);
    PendingInIff(lane, m);
    PendingInIff(SettleIn(lane, {n}), m);
  }

  /** Marks each batch of `seqs` as sent and hands it over, in order. */
  method HandOver(queued: seq<Pending>, seqs: seq<nat>, token: Token) returns (pending: seq<Pending>, sent: seq<Send>)
    ensures pending == MarkAll(queued, seqs, token) && sent == SendsOf(seqs, token)
  {
    pending, sent := queued, [];
    MarkNone(queued, token);
    for i := 0 to |seqs|
      invariant pending == MarkAll(queued, seqs[..i], token) && sent == SendsOf(seqs, token)[..i]
    {
      MarkOneMore(queued, seqs, i, token);
      pending := MarkAll(pending, [seqs[i]], token);
      sent := sent + [Send(seqs[i], token)];
    }
    assert seqs[..|seqs|] == seqs;
  }

  class InputRouter {
    var lanes: map<Session, Lane>
    var nextInputSeq: nat
    /** The batches handed to transports by the call in progress. */
    var out: seq<Send>

    ghost function Now(): Router
      reads this
    {
      Router(lanes, nextInputSeq)
    }

    constructor ()
      ensures Now() == Router(map[], 0) && out == []
    {
      lanes, nextInputSeq, out := map[], 0, [];
    }

    /** Admits one batch, or refuses it before it is ever queued. */
    method AdmitBatch(session: Session, bytes: seq<Byte>) returns (admitted: Option<nat>)
      modifies this`lanes, this`nextInputSeq
      ensures Now() == Admit(old(Now()), session, bytes).0
      ensures admitted == Admit(old(Now()), session, bytes).1
    {
      if session !in lanes { lanes := lanes[session := NEW_LANE]; }
      var lane := lanes[session];
      assert lanes == WithLane(old(Now()), session, lane).lanes;
      admitted := None;
      if lane.phase.Closed? || lane.phase.Blocked? || |bytes| > MAX_INPUT_BYTES { return; }
      nextInputSeq := nextInputSeq + 1;
      if bytes == [] || |lane.pending| >= MAX_PENDING_INPUTS || lane.pendingBytes + |bytes| > MAX_PENDING_BYTES {
        return;
      }
      lanes := lanes[session := Queued(lane, nextInputSeq, bytes)];
      assert lanes == WithLane(old(Now()), session, Queued(lane, nextInputSeq, bytes)).lanes;
      admitted := Some(nextInputSeq);
    }

    /** The unstarted batches a sending lane may hand over now, oldest first. */
    method StartableOf(session: Session) returns (seqs: seq<nat>)
      requires session in lanes
      ensures seqs == Startable(lanes[session])
    {
      seqs := [];
      var lane := lanes[session];
      if !lane.phase.Sending? { return; }
      var started := 0;
      var i := 0;
      while i < |lane.pending|
        invariant i <= |lane.pending| && started == StartedCount(lane.pending[..i])
      {
        assert lane.pending[..i + 1][..i] == lane.pending[..i];
        if lane.pending[i].started { started := started + 1; }
        i := i + 1;
      }
      assert lane.pending[..i] == lane.pending;
      var room := if started < MAX_STARTED_INPUTS then MAX_STARTED_INPUTS - started else 0;
      i := 0;
      while i < |lane.pending|
        invariant i <= |lane.pending| && seqs == FirstUnstarted(lane.pending[..i], room)
      {
        assert lane.pending[..i + 1][..i] == lane.pending[..i];
        if !lane.pending[i].started && |seqs| < room { seqs := seqs + [lane.pending[i].inputSeq]; }
        i := i + 1;
      }
      assert lane.pending[..i] == lane.pending;
    }

    /** Hands `token`'s transport every unsent batch the session's window has room for, oldest first. */
    method Dispatch(session: Session, token: Token)
      modifies this`lanes, this`out
      ensures Now() == DispatchStartable(old(Now()), session, token).0
      ensures out == old(out) + DispatchStartable(old(Now()), session, token).1
    {
      if session !in lanes { return; }
      var seqs := StartableOf(session);
      var lane := lanes[session];
      var pending, sent := HandOver(lane.pending, seqs, token);
      lanes := lanes[session := lane.(pending := pending)];
      out := out + sent;
    }

    /** Sends what waits behind a freed slot. */
    method SendQueuedInput(session: Session, destination: Option<Token>)
      modifies this`lanes, this`out
      ensures Now() == SendQueued(old(Now()), session, destination).0
      ensures out == old(out) + SendQueued(old(Now()), session, destination).1
    {
      if destination.Some? && !(session in lanes && IsHolding(lanes[session])) {
        Dispatch(session, destination.value);
      }
    }

    /**
     Settles one batch if it is outstanding. Afterwards it is outstanding nowhere, so a second result
     for it settles nothing, and every other batch is where it was.
     */
    method Settle(n: nat) returns (settled: bool)
      modifies this`lanes
      ensures settled == IsPending(old(Now()), n) && !IsPending(Now(), n)
      ensures lanes.Keys == old(lanes).Keys
      ensures forall s, m: nat :: s in lanes && m != n ==> (IsPendingIn(lanes[s], m) <==> IsPendingIn(old(lanes)[s], m))
      ensures Now() == if settled then SettleAll(old(Now()), {n}) else old(Now())
    {
      settled := exists s :: s in lanes && IsPendingIn(lanes[s], n);
      if settled {
        lanes := map s | s in lanes :: SettleIn(lanes[s], {n});
        forall s, m: nat | s in lanes ensures IsPendingIn(lanes[s], m) <==> m != n && IsPendingIn(old(lanes)[s], m) {
          SettledIsGone(old(lanes)[s], n, m);
        }
      }
    }

    /** Keystrokes from a pane. */
    method HandleTerminalInput(session: Session, bytes: seq<Byte>, destination: Option<Token>, reclaimable: bool)
      modifies this
      ensures Now() == TerminalInput(old(Now()), session, bytes, destination, reclaimable).0
      ensures out == TerminalInput(old(Now()), session, bytes, destination, reclaimable).1
    {
      out := [];
      if session in lanes { lanes := lanes[session := Reclaim(lanes[session], reclaimable)]; }
      var admitted := AdmitBatch(session, bytes);
      if admitted.None? || (session in lanes && IsHolding(lanes[session])) { return; }
      if destination.None? {
        lanes := map s | s in lanes :: SettleIn(lanes[s], {admitted.value});
      } else {
        Dispatch(session, destination.value);
      }
    }

    /** A write result that the Sync socket delivered for one batch. */
    method HandleInputResult(session: Session, n: nat, outcome: Outcome, directRoute: bool, reclaimable: bool,
        destination: Option<Token>)
      modifies this
      ensures Now() == InputResult(old(Now()), session, n, outcome, directRoute, reclaimable, destination).0
      ensures out == InputResult(old(Now()), session, n, outcome, directRoute, reclaimable, destination).1
    {
      out := [];
      if session in lanes && !directRoute && outcome.RouteChanged? && Requeues(lanes[session], n) {
        lanes := lanes[session := Reclaim(Requeue(lanes[session], n), reclaimable)];
        if IsHolding(lanes[session]) { return; }
      }
      var settled := Settle(n);
      if settled { SendQueuedInput(session, destination); }
    }

    /** A direct carrier's result for a batch that this carrier was handed. */
    method HandleDirectResult(session: Session, n: nat, token: Token, destination: Option<Token>)
      modifies this
      ensures Now() == DirectResult(old(Now()), session, n, token, destination).0
      ensures out == DirectResult(old(Now()), session, n, token, destination).1
    {
      out := [];
      if session in lanes && CarriedBy(lanes[session], n, token) {
        lanes := lanes[session := SettleIn(lanes[session], {n})];
        SendQueuedInput(session, destination);
      }
    }
  }

}
