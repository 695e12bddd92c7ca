/**
 When the cumulative acknowledgements of a run cover applied frames only: the exact steps that tell
 the coordinator that a frame was processed which is still held, or was given up.
 */
module SyncCoverage {

  import opened Basics
  import opened SyncProtocol
  import opened SyncProofs
  import opened SyncLosses

  // ---------------------------------------------------------------------------------------------
  // The steps that acknowledge past an unapplied frame
  // ---------------------------------------------------------------------------------------------

  /** Every frame that an acknowledgement covers has been applied. */
  ghost predicate OnlyAppliedCovered(s: State) {
    forall k, i :: 0 <= k < |s.acks| && Covers(s, s.acks[k], i) ==> i in s.applied
  }

  /** The link of `generation` delivered frame `i`, numbered below `deliverySeq`. */
  predicate DeliveredBelow(s: State, generation: nat, deliverySeq: nat, i: nat) {
    i < |s.received| && s.received[i].generation == generation && s.received[i].deliverySeq < deliverySeq
  }

  /** A frame of the link, numbered below `deliverySeq`, was given up. */
  predicate LostBelow(s: State, generation: nat, deliverySeq: nat) {
    exists l :: 0 <= l < |s.lost| && DeliveredBelow(s, generation, deliverySeq, s.lost[l].arrival)
  }

  predicate HoldsOf(s: State, generation: nat) {
    exists h :: 0 <= h < |s.retained| && s.retained[h].generation == generation
  }

  /** The frame received is acknowledged while one of its link is held, or was given up. */
  predicate LiveAcksPast(s: State, e: Event) {
    && e.Receive? && AppliesLive(s, e.frame)
    && s.link == Some(e.generation) && !e.frame.broken && e.deliverySeq > 0
    && (HoldsOf(s, e.generation) || LostBelow(s, e.generation, e.deliverySeq))
  }

  predicate IsBroken(frame: Frame) {
    frame.Application? && frame.broken
  }

  /** A held frame of the link is broken, so that draining it closes the link. */
  predicate HoldsBroken(held: seq<Held>, i: nat, generation: nat) {
    exists h :: i <= h < |held| && held[h].generation == generation && IsBroken(held[h].frame)
  }

  /** The held frame `h` is of the link, and one of the link numbered below it was given up. */
  predicate PastLost(s: State, generation: nat, h: nat) {
    h < |s.retained| && s.retained[h].generation == generation && LostBelow(s, generation, s.retained[h].deliverySeq)
  }

  predicate HoldsPastLost(s: State, generation: nat) {
    exists h :: 0 <= h < |s.retained| && PastLost(s, generation, h)
  }

  /** Hydration acknowledges a held frame although one of the same link, numbered below it, was given up. */
  predicate HydrationAcksPast(s: State, e: Event) {
    && e.Publish? && e.domain.Terminal? && TicketIsCurrent(s, e.generation, e.domain, e.domainGeneration)
    && !HoldsBroken(s.retained, 0, e.generation) && HoldsPastLost(s, e.generation)
  }

  predicate AcksPastUnapplied(s: State, e: Event) {
    LiveAcksPast(s, e) || HydrationAcksPast(s, e)
  }

  // ---------------------------------------------------------------------------------------------
  // One step
  // ---------------------------------------------------------------------------------------------

  /** What was received is unapplied exactly when it is held or was given up, and never both. */
  lemma UnappliedIff(s: State, i: nat)
    requires Conserved(s) && i < |s.received|
    ensures i !in s.applied <==> i in HeldArrivals(s.retained) || i in LostArrivals(s.lost)
    ensures !(i in HeldArrivals(s.retained) && i in LostArrivals(s.lost))
  {
    UptoCounts(|s.received|, i);
    var a, h, l := multiset(s.applied), multiset(HeldArrivals(s.retained)), multiset(LostArrivals(s.lost));
    assert (a + h + l)[i] == a[i] + h[i] + l[i] == 1;
    assert (i in s.applied <==> i in a) && (i in HeldArrivals(s.retained) <==> i in h) &&
      (i in LostArrivals(s.lost) <==> i in l);
  }

  /** What the earlier acknowledgements cover stays applied; a new one is judged by what it covers. */
  lemma OnlyTheNewOneMatters(s: State, t: State)
    requires OnlyAppliedCovered(s) && AcksNameApplied(s) && AcknowledgesApplied(s, t) && Sequenced(t.received)
    ensures t.acks == s.acks ==> OnlyAppliedCovered(t)
    ensures forall a :: t.acks == s.acks + [a] ==>
      (OnlyAppliedCovered(t) <==> forall i :: Covers(t, a, i) ==> i in t.applied)
  {
    forall k, i: nat | 0 <= k < |s.acks| && Covers(t, s.acks[k], i) ensures i in t.applied {
      CoveredWasReceived(s, t, s.acks[k], i);
    }
    forall a | t.acks == s.acks + [a]
      ensures OnlyAppliedCovered(t) <==> forall i :: Covers(t, a, i) ==> i in t.applied
    {
      assert t.acks[|s.acks|] == a;
    }
  }

  lemma LostAt(s: State, generation: nat, deliverySeq: nat, i: nat)
    requires i in LostArrivals(s.lost) && DeliveredBelow(s, generation, deliverySeq, i)
    ensures LostBelow(s, generation, deliverySeq)
  {
    var l :| 0 <= l < |s.lost| && LostArrivals(s.lost)[l] == i;
    assert s.lost[l].arrival == i;
  }

  lemma HeldAt(s: State, i: nat)
    requires HeldAsReceived(s) && i in HeldArrivals(s.retained)
    ensures i < |s.received| && HoldsOf(s, s.received[i].generation)
  {
    var h :| 0 <= h < |s.retained| && HeldArrivals(s.retained)[h] == i;
    assert s.retained[h].generation == s.received[i].generation;
  }

  /** Some frame of the link is unapplied before a live one exactly when one is held or given up. */
  lemma UnappliedBeforeIff(s: State, e: Event)
    requires Inv(s) && e.Receive? && Sequenced(Received(s, e.generation, e.deliverySeq).received)
    ensures (exists i: nat :: DeliveredBelow(s, e.generation, e.deliverySeq, i) && i !in s.applied) <==>
      HoldsOf(s, e.generation) || LostBelow(s, e.generation, e.deliverySeq)
  {
    var r, n := Received(s, e.generation, e.deliverySeq).received, |s.received|;
    if i: nat :| DeliveredBelow(s, e.generation, e.deliverySeq, i) && i !in s.applied {
      UnappliedIff(s, i);
      if i in LostArrivals(s.lost) { LostAt(s, e.generation, e.deliverySeq, i); } else { HeldAt(s, i); }
    }
    if h :| 0 <= h < |s.retained| && s.retained[h].generation == e.generation {
      var i := s.retained[h].arrival;
      assert r[i] == s.received[i] && r[n] == Delivery(e.generation, e.deliverySeq);
      assert HeldArrivals(s.retained)[h] == i;
      UnappliedIff(s, i);
      assert DeliveredBelow(s, e.generation, e.deliverySeq, i);
    }
    if l :| 0 <= l < |s.lost| && DeliveredBelow(s, e.generation, e.deliverySeq, s.lost[l].arrival) {
      assert LostArrivals(s.lost)[l] == s.lost[l].arrival;
      UnappliedIff(s, s.lost[l].arrival);
    }
  }

  /** The acknowledgement of a live frame covers an unapplied one exactly when one came before it. */
  lemma LiveAckCovers(s: State, t: State, a: Ack)
    requires t.received == s.received + [Delivery(a.generation, a.deliverySeq)] && Sequenced(t.received)
    requires t.applied == s.applied + [|s.received|]
    ensures (forall i :: Covers(t, a, i) ==> i in t.applied) <==>
      !exists i: nat :: DeliveredBelow(s, a.generation, a.deliverySeq, i) && i !in s.applied
  {
    var n := |s.received|;
    if i: nat :| DeliveredBelow(s, a.generation, a.deliverySeq, i) && i !in s.applied {
      assert t.received[i] == s.received[i];
      assert Covers(t, a, i) && i !in t.applied;
    }
    forall i: nat | Covers(t, a, i) && i !in t.applied
      ensures DeliveredBelow(s, a.generation, a.deliverySeq, i) && i !in s.applied
    {
      assert t.received[n] == Delivery(a.generation, a.deliverySeq) && n in t.applied;
      assert t.received[i] == s.received[i];
    }
  }

  lemma LiveCoversIff(s: State, e: Event)
    requires Inv(s) && OnlyAppliedCovered(s) && AcksNameApplied(s) && Sequenced(Step(s, e).received)
    requires e.Receive? && AppliesLive(s, e.frame)
    ensures OnlyAppliedCovered(Step(s, e)) <==> !LiveAcksPast(s, e)
  {
    var t := Step(s, e);
    LiveEffect(s, e.generation, e.deliverySeq, e.frame);
    ReceiveAcknowledges(s, e.generation, e.deliverySeq, e.frame);
    OnlyTheNewOneMatters(s, t);
    if t.acks != s.acks {
      var a := Ack(e.deliverySeq, e.generation);
      assert t.acks == s.acks + [a];
      LiveAckCovers(s, t, a);
      UnappliedBeforeIff(s, e);
    }
  }

  /** Draining keeps the link unless one of its frames is broken, and then gives their highest number. */
  lemma {:induction false} DrainGivesHighest(s: State, held: seq<Held>, i: nat, highest: nat, generation: nat)
    requires i <= |held| && s.link == Some(generation)
    requires forall j :: i <= j < |held| ==> held[j].frame.Application?
    ensures var (t, h) := DrainFrom(s, held, i, highest);
      && (t.link == if HoldsBroken(held, i, generation) then None else Some(generation))
      && (t.link.Some? ==> h >= highest && forall j :: i <= j < |held| && held[j].generation == generation ==>
            held[j].deliverySeq <= h)
    decreases |held| - i
  {
    if i < |held| {
      var h := held[i];
      var t := Fold(s.(applied := s.applied + [h.arrival]), h.generation, h.frame);
      var best := if t.link == Some(h.generation) && h.deliverySeq > highest then h.deliverySeq else highest;
      if h.generation == generation && h.frame.broken {
        DrainEffect(t, held, i + 1, best);
      } else {
        DrainGivesHighest(t, held, i + 1, best, generation);
      }
    }
  }

  /** Hydration acknowledges the highest held number of the link, unless a broken frame closes it. */
  lemma HydrationAcknowledges(s: State, generation: nat)
    requires HeldAsReceived(s) && s.link == Some(generation) && Sequenced(s.received)
    ensures var t := Hydrate(s);
      if HoldsBroken(s.retained, 0, generation) || !HoldsOf(s, generation) then t.acks == s.acks
      else exists j: nat ::
        IsHighest(s.retained, generation, j) && t.acks == s.acks + [Ack(s.retained[j].deliverySeq, generation)]
  {
    var start := s.(hydrated := true, retained := []);
    DrainGivesHighest(start, s.retained, 0, 0, generation);
    DrainEffect(start, s.retained, 0, 0);
    if !HoldsBroken(s.retained, 0, generation) && HoldsOf(s, generation) {
      var h :| 0 <= h < |s.retained| && s.retained[h].generation == generation;
      assert s.received[s.retained[h].arrival].deliverySeq > 0;
      var (t, m) := DrainFrom(start, s.retained, 0, 0);
      var j :| 0 <= j < |s.retained| && s.retained[j].deliverySeq == m && t.link == Some(s.retained[j].generation);
      assert IsHighest(s.retained, generation, j);
    }
  }

  ghost predicate IsHighest(held: seq<Held>, generation: nat, j: nat) {
    && j < |held| && held[j].generation == generation
    && forall h :: 0 <= h < |held| && held[h].generation == generation ==> held[h].deliverySeq <= held[j].deliverySeq
  }

  lemma HydratedCoversIff(s: State, generation: nat, j: nat)
    requires Inv(s) && Sequenced(s.received) && IsHighest(s.retained, generation, j)
    ensures var t := Hydrate(s);
      (exists i :: Covers(t, Ack(s.retained[j].deliverySeq, generation), i) && i !in t.applied) <==>
      LostBelow(s, generation, s.retained[j].deliverySeq)
  {
    var t, top := Hydrate(s), s.retained[j].deliverySeq;
    HydrateEffect(s);
    if i: nat :| Covers(t, Ack(top, generation), i) && i !in t.applied {
      UnappliedIff(s, i);
      assert i !in s.applied && i !in HeldArrivals(s.retained);
      assert i != s.retained[j].arrival by { assert HeldArrivals(s.retained)[j] == s.retained[j].arrival; }
      assert s.received[s.retained[j].arrival].deliverySeq == top;
      LostAt(s, generation, top, i);
    }
    if l :| 0 <= l < |s.lost| && DeliveredBelow(s, generation, top, s.lost[l].arrival) {
      var i := s.lost[l].arrival;
      assert LostArrivals(s.lost)[l] == i;
      UnappliedIff(s, i);
      assert Covers(t, Ack(top, generation), i) && i !in t.applied;
    }
  }

  /** What is below some held number of the link is below the highest. */
  lemma BelowTheHighest(s: State, generation: nat, j: nat)
    requires IsHighest(s.retained, generation, j)
    ensures LostBelow(s, generation, s.retained[j].deliverySeq) <==> HoldsPastLost(s, generation)
  {
    assert LostBelow(s, generation, s.retained[j].deliverySeq) ==> PastLost(s, generation, j);
    if h :| 0 <= h < |s.retained| && PastLost(s, generation, h) {
      var l :| 0 <= l < |s.lost| && DeliveredBelow(s, generation, s.retained[h].deliverySeq, s.lost[l].arrival);
      assert DeliveredBelow(s, generation, s.retained[j].deliverySeq, s.lost[l].arrival);
    }
  }

  lemma HydrationCoversIff(s: State, generation: nat)
    requires Inv(s) && OnlyAppliedCovered(s) && AcksNameApplied(s)
    requires Sequenced(s.received) && s.link == Some(generation)
    ensures OnlyAppliedCovered(Hydrate(s)) <==>
      HoldsBroken(s.retained, 0, generation) || !HoldsPastLost(s, generation)
  {
    var t := Hydrate(s);
    HydrateEffect(s);
    HydrateAcknowledges(s);
    OnlyTheNewOneMatters(s, t);
    HydrationAcknowledges(s, generation);
    if !HoldsBroken(s.retained, 0, generation) && HoldsOf(s, generation) {
      var j: nat :| IsHighest(s.retained, generation, j) &&
        t.acks == s.acks + [Ack(s.retained[j].deliverySeq, generation)];
      HydratedCoversIff(s, generation, j);
      BelowTheHighest(s, generation, j);
    }
  }

  lemma QuietStep(s: State, e: Event)
    requires Inv(s) && (e.Receive? ==> !AppliesLive(s, e.frame) && (IsControl(e.frame) ==> e.deliverySeq == 0))
    requires !(e.Publish? && e.domain.Terminal? && TicketIsCurrent(s, e.generation, e.domain, e.domainGeneration))
    ensures Step(s, e).acks == s.acks
  {
    if e.Receive? { FoldKeepsLogs(s, e.generation, e.frame); }
  }

  /** From a state in which only applied frames are covered, exactly these steps cover another. */
  lemma StepCoversIff(s: State, e: Event)
    requires Inv(s) && OnlyAppliedCovered(s) && AcksNameApplied(s) && Sequenced(Step(s, e).received)
    requires e.Receive? && IsControl(e.frame) ==> e.deliverySeq == 0
    ensures OnlyAppliedCovered(Step(s, e)) <==> !AcksPastUnapplied(s, e)
  {
    if e.Receive? && AppliesLive(s, e.frame) {
      LiveCoversIff(s, e);
    } else if e.Publish? && e.domain.Terminal? && TicketIsCurrent(s, e.generation, e.domain, e.domainGeneration) {
      var r := s.(domains := s.domains[e.domain := s.domains[e.domain].(ready := true)]);
      HydrateEffect(r);
      HydrationCoversIff(r, e.generation);
      forall h: nat ensures PastLost(r, e.generation, h) <==> PastLost(s, e.generation, h) {
        if h < |s.retained| { SameLosses(s, r, e.generation, s.retained[h].deliverySeq); }
      }
    } else {
      QuietStep(s, e);
      StepAcknowledges(s, e);
      OnlyTheNewOneMatters(s, Step(s, e));
    }
  }

  lemma SameLosses(s: State, r: State, generation: nat, deliverySeq: nat)
    requires SameFrames(s, r)
    ensures LostBelow(r, generation, deliverySeq) <==> LostBelow(s, generation, deliverySeq)
  {
    forall i: nat
      ensures DeliveredBelow(r, generation, deliverySeq, i) <==> DeliveredBelow(s, generation, deliverySeq, i)
    {
    }
  }

  // ---------------------------------------------------------------------------------------------
  // Whole runs
  // ---------------------------------------------------------------------------------------------

  ghost predicate NeverAcksPastUnapplied(events: seq<Event>) {
    forall i :: 0 <= i < |events| ==> !AcksPastUnapplied(Run(INITIAL, events[..i]), events[i])
  }

  /** At every moment of the run, the acknowledgements cover applied frames only. */
  ghost predicate AlwaysCoversApplied(events: seq<Event>) {
    forall k :: 0 <= k <= |events| ==> OnlyAppliedCovered(Run(INITIAL, events[..k]))
  }

  lemma CoversAppliedOneMore(events: seq<Event>, i: nat)
    requires Proper(events) && i < |events| && OnlyAppliedCovered(Run(INITIAL, events[..i]))
    ensures OnlyAppliedCovered(Run(INITIAL, events[..i + 1])) <==>
      !AcksPastUnapplied(Run(INITIAL, events[..i]), events[i])
  {
    var next := events[..i + 1];
    assert next[..i] == events[..i] && next[i] == events[i];
    ProperUpTo(events, i);
    ProperUpTo(events, i + 1);
    ReceivedIsDelivered(next);
    RunConserves(events[..i]);
    RunAcknowledgesApplied(events[..i]);
    StepCoversIff(Run(INITIAL, events[..i]), events[i]);
  }

  lemma {:induction false} CoversAppliedUpTo(events: seq<Event>, k: nat)
    requires Proper(events) && NeverAcksPastUnapplied(events) && k <= |events|
    ensures OnlyAppliedCovered(Run(INITIAL, events[..k]))
  {
    if k > 0 {
      CoversAppliedUpTo(events, k - 1);
      CoversAppliedOneMore(events, k - 1);
    }
  }

  /**
   The acknowledgements of a run cover applied frames only, at every moment, if and only if no step
   acknowledges a frame past one of its link that is held or was given up: neither on receiving it,
   nor on draining it.
   */
  lemma AcksCoverOnlyAppliedIff(events: seq<Event>)
    requires Proper(events)
    ensures AlwaysCoversApplied(events) <==> NeverAcksPastUnapplied(events)
  {
    if NeverAcksPastUnapplied(events) {
      forall k | 0 <= k <= |events| ensures OnlyAppliedCovered(Run(INITIAL, events[..k])) {
        CoversAppliedUpTo(events, k);
      }
    }
    if AlwaysCoversApplied(events) {
      forall i | 0 <= i < |events| ensures !AcksPastUnapplied(Run(INITIAL, events[..i]), events[i]) {
        assert OnlyAppliedCovered(Run(INITIAL, events[..i])) && OnlyAppliedCovered(Run(INITIAL, events[..i + 1]));
        CoversAppliedOneMore(events, i);
      }
    }
  }

}
