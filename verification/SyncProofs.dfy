/**
 What holds of every run of the Sync rules: no application frame is applied twice or silently
 forgotten, acknowledgements name applied frames of the current link, and exactly which steps lose a
 frame that a later cumulative acknowledgement then covers.
 */
module SyncProofs {

  import opened Basics
  import opened SyncProtocol

  // ---------------------------------------------------------------------------------------------
  // Conservation
  // ---------------------------------------------------------------------------------------------

  function HeldArrivals(retained: seq<Held>): seq<nat> {
    seq(|retained|, i requires 0 <= i < |retained| => retained[i].arrival)
  }

  function LostArrivals(lost: seq<Loss>): seq<nat> {
    seq(|lost|, i requires 0 <= i < |lost| => lost[i].arrival)
  }

  function Upto(n: nat): seq<nat> {
    seq(n, i => i)
  }

  /** Every application frame received is applied, held or lost, and only one of them, once. */
  ghost predicate Conserved(s: State) {
    multiset(s.applied) + multiset(HeldArrivals(s.retained)) + multiset(LostArrivals(s.lost)) ==
      multiset(Upto(|s.received|))
  }

  /** The held frames are application frames, as delivered. */
  ghost predicate HeldAsReceived(s: State) {
    forall i :: 0 <= i < |s.retained| ==>
      && s.retained[i].frame.Application? && s.retained[i].arrival < |s.received|
      && s.received[s.retained[i].arrival] == Delivery(s.retained[i].generation, s.retained[i].deliverySeq)
  }

  lemma FoldKeepsLogs(s: State, generation: nat, frame: Frame)
    ensures var t := Fold(s, generation, frame);
      && t.retained == s.retained && t.received == s.received && t.applied == s.applied
      && t.lost == s.lost && t.acks == s.acks
      && (t.link == s.link || t.link.None?)
      && (frame.Application? ==> t.hydrated == s.hydrated)
  {
  }

  /** Draining applies the held frames in order and acknowledges one that the final link delivered. */
  lemma {:induction false} DrainEffect(s: State, held: seq<Held>, i: nat, highest: nat)
    requires i <= |held| && forall j :: i <= j < |held| ==> held[j].frame.Application?
    ensures var (t, h) := DrainFrom(s, held, i, highest);
      && t.retained == s.retained && t.received == s.received && t.lost == s.lost && t.acks == s.acks
      && t.hydrated == s.hydrated && (t.link == s.link || t.link.None?)
      && t.applied == s.applied + HeldArrivals(held)[i..]
      && (t.link.None? || h == highest ||
            exists j :: i <= j < |held| && held[j].deliverySeq == h && t.link == Some(held[j].generation))
    decreases |held| - i
  {
    if i < |held| {
      var h := held[i];
      var logged := s.(applied := s.applied + [h.arrival]);
      FoldKeepsLogs(logged, h.generation, h.frame);
      var t := Fold(logged, h.generation, h.frame);
      var best := if t.link == Some(h.generation) && h.deliverySeq > highest then h.deliverySeq else highest;
      DrainEffect(t, held, i + 1, best);
      assert HeldArrivals(held)[i..] == [h.arrival] + HeldArrivals(held)[i + 1..];
    } else {
      assert HeldArrivals(held)[i..] == [];
    }
  }

  lemma HydrateEffect(s: State)
    requires HeldAsReceived(s)
    ensures var t := Hydrate(s);
      && t.retained == [] && t.hydrated && t.received == s.received && t.lost == s.lost
      && t.applied == s.applied + HeldArrivals(s.retained)
      && (t.link == s.link || t.link.None?)
      && (t.acks == s.acks ||
            exists j :: 0 <= j < |s.retained| && s.retained[j].deliverySeq > 0 &&
              t.link == Some(s.retained[j].generation) &&
              t.acks == s.acks + [Ack(s.retained[j].deliverySeq, s.retained[j].generation)])
  {
    DrainEffect(s.(hydrated := true, retained := []), s.retained, 0, 0);
    assert HeldArrivals(s.retained)[0..] == HeldArrivals(s.retained);
  }

  lemma UptoStep(n: nat)
    ensures Upto(n + 1) == Upto(n) + [n]
  {
  }

  lemma RetainKeeps(s: State, held: Held)
    ensures var t := Retain(s, held);
      multiset(HeldArrivals(t.retained)) + multiset(LostArrivals(t.lost)) ==
      multiset(HeldArrivals(s.retained)) + multiset(LostArrivals(s.lost)) + multiset{held.arrival}
  {
    var t := Retain(s, held);
    if |s.retained| >= RETAINED_MAX {
      assert HeldArrivals(s.retained) == [s.retained[0].arrival] + HeldArrivals(s.retained)[1..];
      assert HeldArrivals(t.retained) == HeldArrivals(s.retained)[1..] + [held.arrival];
      assert LostArrivals(t.lost) == LostArrivals(s.lost) + [s.retained[0].arrival];
    } else {
      assert HeldArrivals(t.retained) == HeldArrivals(s.retained) + [held.arrival];
    }
  }

  ghost predicate Inv(s: State) {
    Conserved(s) && HeldAsReceived(s)
  }

  function Received(s: State, generation: nat, deliverySeq: nat): State {
    s.(received := s.received + [Delivery(generation, deliverySeq)])
  }

  lemma SumOfThree(a: multiset<nat>, k: multiset<nat>, l: multiset<nat>, k': multiset<nat>, l': multiset<nat>, x: nat)
    requires k' + l' == k + l + multiset{x}
    ensures a + k' + l' == a + k + l + multiset{x}
  {
    assert a + k' + l' == a + (k' + l');
    assert a + k + l + multiset{x} == a + (k + l + multiset{x});
  }

  lemma HoldConserves(s: State, held: Held)
    requires Conserved(s) && held.arrival == |s.received|
    ensures Conserved(Retain(Received(s, held.generation, held.deliverySeq), held))
  {
    var r := Received(s, held.generation, held.deliverySeq);
    var t := Retain(r, held);
    RetainKeeps(r, held);
    UptoStep(|s.received|);
    SumOfThree(multiset(s.applied), multiset(HeldArrivals(s.retained)), multiset(LostArrivals(s.lost)),
               multiset(HeldArrivals(t.retained)), multiset(LostArrivals(t.lost)), held.arrival);
  }

  lemma HoldKeeps(s: State, held: Held)
    requires Inv(s) && held.frame.Application? && held.arrival == |s.received|
    ensures Inv(Retain(Received(s, held.generation, held.deliverySeq), held))
  {
    HoldConserves(s, held);
  }

  lemma LoseKeeps(s: State, generation: nat, deliverySeq: nat)
    requires Inv(s)
    ensures var r := Received(s, generation, deliverySeq);
      Inv(r.(lost := r.lost + [Unsubscribed(|s.received|)]))
  {
    UptoStep(|s.received|);
    assert LostArrivals(s.lost + [Unsubscribed(|s.received|)]) == LostArrivals(s.lost) + [|s.received|];
  }

  lemma ApplyKeeps(s: State, generation: nat, deliverySeq: nat)
    requires Inv(s)
    ensures var r := Received(s, generation, deliverySeq);
      Inv(r.(applied := r.applied + [|s.received|]))
  {
    UptoStep(|s.received|);
  }

  /** `t` has the frames of `s`: the same received, applied, held and lost. */
  ghost predicate SameFrames(s: State, t: State) {
    t.received == s.received && t.applied == s.applied && t.retained == s.retained && t.lost == s.lost
  }

  lemma SameFramesKeep(s: State, t: State)
    requires Inv(s) && SameFrames(s, t)
    ensures Inv(t)
  {
  }

  lemma ControlKeeps(s: State, generation: nat, deliverySeq: nat, frame: Frame)
    requires Inv(s) && IsControl(frame)
    ensures Inv(HandleFrame(s, generation, deliverySeq, frame))
  {
    FoldKeepsLogs(s, generation, frame);
    SameFramesKeep(s, HandleFrame(s, generation, deliverySeq, frame));
  }

  /** An application frame that is applied as it arrives. */
  predicate AppliesLive(s: State, frame: Frame) {
    frame.Application? && s.hydrated && MayApply(s.domains, frame)
  }

  lemma LiveEffect(s: State, generation: nat, deliverySeq: nat, frame: Frame)
    requires AppliesLive(s, frame)
    ensures var t := HandleFrame(s, generation, deliverySeq, frame); var r := Received(s, generation, deliverySeq);
      && SameFrames(r.(applied := r.applied + [|s.received|]), t)
      && t.acks == (if s.link == Some(generation) && !frame.broken && deliverySeq > 0
                    then s.acks + [Ack(deliverySeq, generation)] else s.acks)
  {
    var r := Received(s, generation, deliverySeq);
    FoldKeepsLogs(r.(applied := r.applied + [|s.received|]), generation, frame);
  }

  lemma LiveKeeps(s: State, generation: nat, deliverySeq: nat, frame: Frame)
    requires Inv(s) && AppliesLive(s, frame)
    ensures Inv(HandleFrame(s, generation, deliverySeq, frame))
  {
    var r := Received(s, generation, deliverySeq);
    ApplyKeeps(s, generation, deliverySeq);
    LiveEffect(s, generation, deliverySeq, frame);
    SameFramesKeep(r.(applied := r.applied + [|s.received|]), HandleFrame(s, generation, deliverySeq, frame));
  }

  lemma ReceiveKeeps(s: State, generation: nat, deliverySeq: nat, frame: Frame)
    requires Inv(s)
    ensures Inv(HandleFrame(s, generation, deliverySeq, frame))
  {
    if IsControl(frame) {
      ControlKeeps(s, generation, deliverySeq, frame);
    } else if AppliesLive(s, frame) {
      LiveKeeps(s, generation, deliverySeq, frame);
    } else if s.hydrated {
      LoseKeeps(s, generation, deliverySeq);
    } else {
      HoldKeeps(s, Held(frame, deliverySeq, generation, |s.received|));
    }
  }

  lemma OpenKeeps(s: State, generation: nat)
    requires Inv(s)
    ensures Inv(OpenLink(s, generation))
  {
    if Opens(s, generation) {
      var t := OpenLink(s, generation);
      assert LostArrivals(t.lost) == LostArrivals(s.lost) + HeldArrivals(s.retained);
      assert HeldArrivals(t.retained) == [];
    }
  }

  lemma PublishKeeps(s: State, generation: nat, domain: Domain, domainGeneration: nat)
    requires Inv(s)
    ensures Inv(PublishDomain(s, generation, domain, domainGeneration))
  {
    if TicketIsCurrent(s, generation, domain, domainGeneration) && domain.Terminal? {
      var r := s.(domains := s.domains[domain := s.domains[domain].(ready := true)]);
      HydrateEffect(r);
      assert HeldArrivals(Hydrate(r).retained) == [];
    }
  }

  lemma StepKeeps(s: State, e: Event)
    requires Inv(s)
    ensures Inv(Step(s, e))
  {
    match e
    case Dial =>
    case Open(generation) => OpenKeeps(s, generation);
    case Close(generation) =>
    case Receive(generation, deliverySeq, frame) => ReceiveKeeps(s, generation, deliverySeq, frame);
    case Publish(generation, domain, domainGeneration) => PublishKeeps(s, generation, domain, domainGeneration);
  }

  /**
   Conservation over every run: each application frame received is exactly one of applied, held or
   lost. In particular no frame is ever applied twice, whatever redials happen.
   */
  lemma {:induction false} RunConserves(events: seq<Event>)
    ensures Inv(Run(INITIAL, events))
  {
    if events != [] {
      RunConserves(events[..|events| - 1]);
      StepKeeps(Run(INITIAL, events[..|events| - 1]), events[|events| - 1]);
    }
  }

  lemma {:induction false} UptoCounts(n: nat, i: nat)
    ensures multiset(Upto(n))[i] == if i < n then 1 else 0
  {
    if n > 0 {
      UptoCounts(n - 1, i);
      UptoStep(n - 1);
    }
  }

  lemma AppliedAtMostOnce(events: seq<Event>, arrival: nat)
    ensures multiset(Run(INITIAL, events).applied)[arrival] <= 1
  {
    RunConserves(events);
    UptoCounts(|Run(INITIAL, events).received|, arrival);
  }

  // ---------------------------------------------------------------------------------------------
  // Acknowledgements
  // ---------------------------------------------------------------------------------------------

  /** Controls carry no delivery sequence. */
  predicate ControlsUnsequenced(events: seq<Event>) {
    forall i :: 0 <= i < |events| ==>
      events[i].Receive? && IsControl(events[i].frame) ==> events[i].deliverySeq == 0
  }

  /** The acknowledgement names a non-zero sequence of an application frame applied before it. */
  ghost predicate NamesApplied(s: State, a: Ack) {
    a.deliverySeq > 0 &&
    exists i :: i in s.applied && i < |s.received| && s.received[i] == Delivery(a.generation, a.deliverySeq)
  }

  ghost predicate AcksNameApplied(s: State) {
    forall k :: 0 <= k < |s.acks| ==> NamesApplied(s, s.acks[k])
  }

  /** `t` follows `s` and adds at most one acknowledgement, on the link then current, of a frame then applied. */
  ghost predicate AcknowledgesApplied(s: State, t: State) {
    && s.received <= t.received && s.applied <= t.applied
    && (t.acks == s.acks || exists a :: t.acks == s.acks + [a] && t.link == Some(a.generation) && NamesApplied(t, a))
  }

  lemma ReceiveAcknowledges(s: State, generation: nat, deliverySeq: nat, frame: Frame)
    requires IsControl(frame) ==> deliverySeq == 0
    ensures AcknowledgesApplied(s, HandleFrame(s, generation, deliverySeq, frame))
  {
    if IsControl(frame) {
      FoldKeepsLogs(s, generation, frame);
    } else if s.hydrated && MayApply(s.domains, frame) {
      var n := |s.received|;
      var r := Received(s, generation, deliverySeq);
      FoldKeepsLogs(r.(applied := r.applied + [n]), generation, frame);
      var t := HandleFrame(s, generation, deliverySeq, frame);
      assert t.received[n] == Delivery(generation, deliverySeq) && t.applied[|s.applied|] == n;
      assert deliverySeq > 0 ==> NamesApplied(t, Ack(deliverySeq, generation));
    }
  }

  lemma HydrateAcknowledges(s: State)
    requires HeldAsReceived(s)
    ensures AcknowledgesApplied(s, Hydrate(s))
  {
    HydrateEffect(s);
    var t := Hydrate(s);
    if t.acks != s.acks {
      var j :| 0 <= j < |s.retained| && s.retained[j].deliverySeq > 0 && t.link == Some(s.retained[j].generation) &&
        t.acks == s.acks + [Ack(s.retained[j].deliverySeq, s.retained[j].generation)];
      assert t.applied[|s.applied| + j] == HeldArrivals(s.retained)[j] == s.retained[j].arrival;
      assert NamesApplied(t, Ack(s.retained[j].deliverySeq, s.retained[j].generation));
    }
  }

  lemma StepAcknowledges(s: State, e: Event)
    requires Inv(s)
    requires e.Receive? && IsControl(e.frame) ==> e.deliverySeq == 0
    ensures AcknowledgesApplied(s, Step(s, e))
  {
    match e
    case Dial =>
    case Open(_) =>
    case Close(_) =>
    case Receive(generation, deliverySeq, frame) => ReceiveAcknowledges(s, generation, deliverySeq, frame);
    case Publish(generation, domain, domainGeneration) =>
      if TicketIsCurrent(s, generation, domain, domainGeneration) && domain.Terminal? {
        HydrateAcknowledges(s.(domains := s.domains[domain := s.domains[domain].(ready := true)]));
      }
  }

  lemma NamesAppliedGrows(s: State, t: State, a: Ack)
    requires NamesApplied(s, a) && s.received <= t.received && s.applied <= t.applied
    ensures NamesApplied(t, a)
  {
    var i :| i in s.applied && i < |s.received| && s.received[i] == Delivery(a.generation, a.deliverySeq);
    assert i in t.applied && t.received[i] == s.received[i];
  }

  /** Every acknowledgement of every run names a frame already applied on the link it goes out on. */
  lemma {:induction false} RunAcknowledgesApplied(events: seq<Event>)
    requires ControlsUnsequenced(events)
    ensures AcksNameApplied(Run(INITIAL, events))
  {
    if events != [] {
      var init, e := events[..|events| - 1], events[|events| - 1];
      RunAcknowledgesApplied(init);
      RunConserves(init);
      var s := Run(INITIAL, init);
      StepAcknowledges(s, e);
      var t := Step(s, e);
      forall k | 0 <= k < |t.acks| ensures NamesApplied(t, t.acks[k]) {
        if k < |s.acks| { NamesAppliedGrows(s, t, s.acks[k]); }
      }
    }
  }

  // ---------------------------------------------------------------------------------------------
  // Order
  // ---------------------------------------------------------------------------------------------

  predicate Increasing(a: seq<nat>) {
    forall i, j :: 0 <= i < j < |a| ==> a[i] < a[j]
  }

  /** The frames applied, then the frames held: the order in which they are or will be applied. */
  function Line(s: State): seq<nat> {
    s.applied + HeldArrivals(s.retained)
  }

  /** Frames are applied, and wait to be, in arrival order. */
  ghost predicate InOrder(s: State) {
    Increasing(Line(s))
  }

  /** The step applies the frame it receives while earlier ones are held. */
  predicate Overtakes(s: State, e: Event) {
    e.Receive? && AppliesLive(s, e.frame) && s.retained != []
  }

  ghost predicate NeverOvertakes(events: seq<Event>) {
    forall i :: 0 <= i < |events| ==> !Overtakes(Run(INITIAL, events[..i]), events[i])
  }

  lemma NeverOvertakesOneMore(events: seq<Event>)
    requires events != []
    ensures var init, e := events[..|events| - 1], events[|events| - 1];
      NeverOvertakes(events) <==> NeverOvertakes(init) && !Overtakes(Run(INITIAL, init), e)
  {
    var init, e := events[..|events| - 1], events[|events| - 1];
    assert forall i :: 0 <= i < |init| ==> init[..i] == events[..i] && init[i] == events[i];
    if NeverOvertakes(init) && !Overtakes(Run(INITIAL, init), e) {
      forall i | 0 <= i < |events| ensures !Overtakes(Run(INITIAL, events[..i]), events[i]) {
        assert i < |init| ==> !Overtakes(Run(INITIAL, init[..i]), init[i]);
      }
    }
  }

  /** Every frame in line has been received. */
  lemma LineIsReceived(s: State, i: nat)
    requires Conserved(s) && i in Line(s)
    ensures i < |s.received|
  {
    UptoCounts(|s.received|, i);
    if i in s.applied {
      assert multiset(s.applied)[i] > 0;
    } else {
      assert i in HeldArrivals(s.retained);
      assert multiset(HeldArrivals(s.retained))[i] > 0;
    }
  }

  lemma IncreasingPush(a: seq<nat>, n: nat)
    requires Increasing(a) && forall i :: i in a ==> i < n
    ensures Increasing(a + [n])
  {
    forall i, j | 0 <= i < j < |a + [n]| ensures (a + [n])[i] < (a + [n])[j] {
      assert (a + [n])[i] in a;
    }
  }

  /** What is left of an increasing list without one element still increases. */
  lemma IncreasingDrop(a: seq<nat>, b: seq<nat>)
    requires b != [] && Increasing(a + b)
    ensures Increasing(a + b[1..])
  {
    var all, rest := a + b, a + b[1..];
    forall i, j | 0 <= i < j < |rest| ensures rest[i] < rest[j] {
      var i', j' := if i < |a| then i else i + 1, if j < |a| then j else j + 1;
      assert rest[i] == all[i'] && rest[j] == all[j'];
    }
  }

  lemma HoldOrdered(s: State, held: Held)
    requires Inv(s) && InOrder(s) && held.arrival == |s.received|
    ensures InOrder(Retain(Received(s, held.generation, held.deliverySeq), held))
  {
    var before := HeldArrivals(s.retained);
    var t := Retain(Received(s, held.generation, held.deliverySeq), held);
    forall i | i in Line(s) ensures i < held.arrival { LineIsReceived(s, i); }
    if |s.retained| >= RETAINED_MAX {
      IncreasingDrop(s.applied, before);
      var rest := s.applied + before[1..];
      forall i | i in rest ensures i < held.arrival { assert i in Line(s); }
      IncreasingPush(rest, held.arrival);
      assert HeldArrivals(t.retained) == before[1..] + [held.arrival];
      assert Line(t) == rest + [held.arrival];
    } else {
      IncreasingPush(Line(s), held.arrival);
      assert HeldArrivals(t.retained) == before + [held.arrival];
      assert Line(t) == Line(s) + [held.arrival];
    }
  }

  /** A live frame goes into the line right behind the applied ones. */
  lemma LiveLine(s: State, generation: nat, deliverySeq: nat, frame: Frame)
    requires AppliesLive(s, frame)
    ensures Line(HandleFrame(s, generation, deliverySeq, frame)) ==
      s.applied + [|s.received|] + HeldArrivals(s.retained)
  {
    LiveEffect(s, generation, deliverySeq, frame);
  }

  lemma LiveOrderedIff(s: State, e: Event)
    requires Inv(s) && InOrder(s) && e.Receive? && AppliesLive(s, e.frame)
    ensures InOrder(Step(s, e)) <==> s.retained == []
  {
    var n, held := |s.received|, HeldArrivals(s.retained);
    LiveLine(s, e.generation, e.deliverySeq, e.frame);
    forall i | i in Line(s) ensures i < n { LineIsReceived(s, i); }
    if s.retained == [] {
      assert Line(s) == s.applied && Line(Step(s, e)) == s.applied + [n];
      IncreasingPush(s.applied, n);
    } else {
      var line, k := Line(Step(s, e)), |s.applied|;
      assert line[k] == n && line[k + 1] == held[0] && held[0] in Line(s);
    }
  }

  lemma HydrateLine(s: State)
    requires HeldAsReceived(s)
    ensures Line(Hydrate(s)) == Line(s)
  {
    HydrateEffect(s);
    assert HeldArrivals(Hydrate(s).retained) == [];
  }

  lemma ReceiveOrdered(s: State, e: Event)
    requires Inv(s) && InOrder(s) && e.Receive?
    ensures InOrder(Step(s, e)) <==> !Overtakes(s, e)
  {
    if IsControl(e.frame) {
      FoldKeepsLogs(s, e.generation, e.frame);
    } else if AppliesLive(s, e.frame) {
      LiveOrderedIff(s, e);
    } else if !s.hydrated {
      HoldOrdered(s, Held(e.frame, e.deliverySeq, e.generation, |s.received|));
    }
  }

  /** From an ordered state, exactly the overtaking steps break the order. */
  lemma StepOrderedIff(s: State, e: Event)
    requires Inv(s) && InOrder(s)
    ensures InOrder(Step(s, e)) <==> !Overtakes(s, e)
  {
    match e
    case Dial =>
    case Open(generation) =>
      if Opens(s, generation) {
        assert Line(Step(s, e)) == Line(s)[..|s.applied|];
      }
    case Close(_) =>
    case Receive(_, _, _) => ReceiveOrdered(s, e);
    case Publish(generation, domain, domainGeneration) =>
      if TicketIsCurrent(s, generation, domain, domainGeneration) && domain.Terminal? {
        HydrateLine(s.(domains := s.domains[domain := s.domains[domain].(ready := true)]));
      }
  }

  lemma {:induction false} RunStaysInOrder(events: seq<Event>)
    requires NeverOvertakes(events)
    ensures InOrder(Run(INITIAL, events))
  {
    if events == [] {
      assert HeldArrivals([]) == [];
    } else {
      NeverOvertakesOneMore(events);
      RunStaysInOrder(events[..|events| - 1]);
      RunConserves(events[..|events| - 1]);
      StepOrderedIff(Run(INITIAL, events[..|events| - 1]), events[|events| - 1]);
    }
  }

  /** The run is in order at every moment. */
  ghost predicate AlwaysInOrder(events: seq<Event>) {
    forall k :: 0 <= k <= |events| ==> InOrder(Run(INITIAL, events[..k]))
  }

  /**
   Application frames are applied in arrival order, across holds, hydrations and redials, and at
   every moment of a run, if and only if no step applies a frame while earlier ones are held.
   */
  lemma AlwaysInOrderIff(events: seq<Event>)
    ensures AlwaysInOrder(events) <==> NeverOvertakes(events)
  {
    if NeverOvertakes(events) {
      forall k | 0 <= k <= |events| ensures InOrder(Run(INITIAL, events[..k])) {
        assert forall i :: 0 <= i < k ==> events[..k][..i] == events[..i] && events[..k][i] == events[i];
        assert NeverOvertakes(events[..k]);
        RunStaysInOrder(events[..k]);
      }
    }
    if AlwaysInOrder(events) {
      forall i | 0 <= i < |events| ensures !Overtakes(Run(INITIAL, events[..i]), events[i]) {
        var next := events[..i + 1];
        assert next[..i] == events[..i] && next[i] == events[i];
        assert InOrder(Run(INITIAL, events[..i])) && InOrder(Run(INITIAL, next));
        RunConserves(events[..i]);
        StepOrderedIff(Run(INITIAL, events[..i]), events[i]);
      }
    }
  }

  // ---------------------------------------------------------------------------------------------
  // How a frame can be overtaken
  // ---------------------------------------------------------------------------------------------

  /**
   An announcement that leaves the terminal domain unsubscribed ends the hold without draining it.
   A link that announces before it delivers finds nothing held.
   */
  predicate StrandsHeld(s: State, e: Event) {
    && e.Receive? && e.frame.Subscribed? && s.link == Some(e.generation)
    && !AnnouncesTerminal(e.frame.entries) && s.retained != []
  }

  lemma StepKeepsHold(s: State, e: Event)
    requires Inv(s) && (s.hydrated ==> s.retained == []) && !StrandsHeld(s, e)
    ensures Step(s, e).hydrated ==> Step(s, e).retained == []
  {
    match e
    case Receive(generation, deliverySeq, frame) =>
      FoldKeepsLogs(s, generation, frame);
      if AppliesLive(s, frame) { LiveEffect(s, generation, deliverySeq, frame); }
    case Publish(generation, domain, domainGeneration) =>
      if TicketIsCurrent(s, generation, domain, domainGeneration) && domain.Terminal? {
        HydrateEffect(s.(domains := s.domains[domain := s.domains[domain].(ready := true)]));
      }
    case _ =>
  }

  /** Only a stranding announcement lets a later frame overtake. */
  lemma {:induction false} OnlyStrandingOvertakes(events: seq<Event>)
    requires forall i :: 0 <= i < |events| ==> !StrandsHeld(Run(INITIAL, events[..i]), events[i])
    ensures NeverOvertakes(events) && (Run(INITIAL, events).hydrated ==> Run(INITIAL, events).retained == [])
  {
    if events != [] {
      var init, e := events[..|events| - 1], events[|events| - 1];
      assert forall i :: 0 <= i < |init| ==> init[..i] == events[..i] && init[i] == events[i];
      OnlyStrandingOvertakes(init);
      RunConserves(init);
      assert !StrandsHeld(Run(INITIAL, events[..|events| - 1]), e);
      StepKeepsHold(Run(INITIAL, init), e);
      NeverOvertakesOneMore(events);
    }
  }

  // ---------------------------------------------------------------------------------------------
  // Coverage
  // ---------------------------------------------------------------------------------------------

  /** The application frames a run delivers, in order. */
  function Deliveries(events: seq<Event>): seq<Delivery> {
    if events == [] then []
    else
      var e := events[|events| - 1];
      Deliveries(events[..|events| - 1]) +
      (if e.Receive? && !IsControl(e.frame) then [Delivery(e.generation, e.deliverySeq)] else [])
  }

  /** Each link numbers its application frames upward from one. */
  predicate Sequenced(received: seq<Delivery>) {
    && (forall i :: 0 <= i < |received| ==> received[i].deliverySeq > 0)
    && (forall i, j :: 0 <= i < j < |received| && received[i].generation == received[j].generation ==>
          received[i].deliverySeq < received[j].deliverySeq)
  }

  lemma {:induction false} ReceivedIsDelivered(events: seq<Event>)
    ensures Run(INITIAL, events).received == Deliveries(events)
  {
    if events != [] {
      var init, e := events[..|events| - 1], events[|events| - 1];
      ReceivedIsDelivered(init);
      RunConserves(init);
      var s := Run(INITIAL, init);
      if e.Receive? {
        FoldKeepsLogs(s, e.generation, e.frame);
        if AppliesLive(s, e.frame) { LiveEffect(s, e.generation, e.deliverySeq, e.frame); }
      } else if e.Publish? && TicketIsCurrent(s, e.generation, e.domain, e.domainGeneration) {
        HydrateEffect(s.(domains := s.domains[e.domain := s.domains[e.domain].(ready := true)]));
      }
    }
  }

  /** The cumulative acknowledgement `a` tells the coordinator that frame `i` was processed. */
  ghost predicate Covers(s: State, a: Ack, i: nat) {
    i < |s.received| && s.received[i].generation == a.generation && s.received[i].deliverySeq <= a.deliverySeq
  }

  /** Nothing an acknowledgement covers is still held. */
  ghost predicate NoneCoveredIsHeld(s: State) {
    forall k, i :: 0 <= k < |s.acks| && Covers(s, s.acks[k], i) ==> i !in HeldArrivals(s.retained)
  }

  /** The step acknowledges the frame it receives while an earlier one of the same link is held. */
  predicate AcksPastHeld(s: State, e: Event) {
    && Overtakes(s, e) && s.link == Some(e.generation) && !e.frame.broken && e.deliverySeq > 0
    && exists h :: 0 <= h < |s.retained| && s.retained[h].generation == e.generation
  }

  lemma CoveredWasReceived(s: State, t: State, a: Ack, i: nat)
    requires NamesApplied(s, a) && s.received <= t.received && Sequenced(t.received) && Covers(t, a, i)
    ensures Covers(s, a, i)
  {
    var j :| j in s.applied && j < |s.received| && s.received[j] == Delivery(a.generation, a.deliverySeq);
    assert t.received[j] == s.received[j];
    assert !(j < i);
  }

  lemma StillHeld(s: State, t: State, i: nat)
    requires i < |s.received|
    requires forall h :: 0 <= h < |t.retained| && t.retained[h].arrival < |s.received| ==> t.retained[h] in s.retained
    ensures i in HeldArrivals(t.retained) ==> i in HeldArrivals(s.retained)
  {
    if i in HeldArrivals(t.retained) {
      var h :| 0 <= h < |t.retained| && HeldArrivals(t.retained)[h] == i;
      assert t.retained[h].arrival == i;
      var g :| 0 <= g < |s.retained| && s.retained[g] == t.retained[h];
      assert HeldArrivals(s.retained)[g] == i;
    }
  }

  /**
   A step that applies nothing live and leaves frames held adds no acknowledgement, and holds no frame
   anew but the one received.
   */
  lemma StepHolding(s: State, e: Event)
    requires Inv(s) && !(e.Receive? && AppliesLive(s, e.frame))
    requires Step(s, e).retained != [] && (e.Receive? && IsControl(e.frame) ==> e.deliverySeq == 0)
    ensures var t := Step(s, e);
      && t.acks == s.acks && s.received <= t.received
      && forall h :: 0 <= h < |t.retained| && t.retained[h].arrival < |s.received| ==> t.retained[h] in s.retained
  {
    match e
    case Receive(generation, deliverySeq, frame) => FoldKeepsLogs(s, generation, frame);
    case Publish(generation, domain, domainGeneration) =>
      if TicketIsCurrent(s, generation, domain, domainGeneration) && domain.Terminal? {
        HydrateEffect(s.(domains := s.domains[domain := s.domains[domain].(ready := true)]));
      }
    case _ =>
  }

  lemma HoldingCoversNone(s: State, e: Event)
    requires Inv(s) && NoneCoveredIsHeld(s) && AcksNameApplied(s) && !(e.Receive? && AppliesLive(s, e.frame))
    requires (e.Receive? && IsControl(e.frame) ==> e.deliverySeq == 0) && Sequenced(Step(s, e).received)
    ensures NoneCoveredIsHeld(Step(s, e))
  {
    var t := Step(s, e);
    if t.retained != [] {
      StepHolding(s, e);
      forall k, i | 0 <= k < |t.acks| && Covers(t, t.acks[k], i) ensures i !in HeldArrivals(t.retained) {
        CoveredWasReceived(s, t, s.acks[k], i);
        StillHeld(s, t, i);
      }
    }
  }

  lemma LiveCoversNone(s: State, e: Event)
    requires Inv(s) && NoneCoveredIsHeld(s) && AcksNameApplied(s) && e.Receive? && AppliesLive(s, e.frame)
    requires Sequenced(Step(s, e).received) && !AcksPastHeld(s, e)
    ensures NoneCoveredIsHeld(Step(s, e))
  {
    var t := Step(s, e);
    LiveEffect(s, e.generation, e.deliverySeq, e.frame);
    forall k, i: nat | 0 <= k < |t.acks| && Covers(t, t.acks[k], i) ensures i !in HeldArrivals(t.retained) {
      if k < |s.acks| {
        CoveredWasReceived(s, t, s.acks[k], i);
      } else {
        forall h | 0 <= h < |s.retained| ensures s.retained[h].arrival != i {
          assert t.received[s.retained[h].arrival] == s.received[s.retained[h].arrival];
        }
      }
    }
  }

  lemma PastHeldCoversOne(s: State, e: Event)
    requires Inv(s) && AcksPastHeld(s, e) && Sequenced(Step(s, e).received)
    ensures !NoneCoveredIsHeld(Step(s, e))
  {
    var t, n := Step(s, e), |s.received|;
    LiveEffect(s, e.generation, e.deliverySeq, e.frame);
    var h :| 0 <= h < |s.retained| && s.retained[h].generation == e.generation;
    var i := s.retained[h].arrival;
    assert t.received[i] == s.received[i] && t.received[n] == Delivery(e.generation, e.deliverySeq);
    var k := |s.acks|;
    assert t.acks[k] == Ack(e.deliverySeq, e.generation);
    assert Covers(t, t.acks[k], i);
    assert HeldArrivals(t.retained)[h] == i;
    assert i in HeldArrivals(t.retained);
  }

  /** From a state in which no acknowledgement covers a held frame, exactly such a step makes one do so. */
  lemma StepCoversNoneIff(s: State, e: Event)
    requires Inv(s) && NoneCoveredIsHeld(s) && AcksNameApplied(s) && Sequenced(Step(s, e).received)
    requires e.Receive? && IsControl(e.frame) ==> e.deliverySeq == 0
    ensures NoneCoveredIsHeld(Step(s, e)) <==> !AcksPastHeld(s, e)
  {
    if AcksPastHeld(s, e) {
      PastHeldCoversOne(s, e);
    } else if e.Receive? && AppliesLive(s, e.frame) {
      LiveCoversNone(s, e);
    } else {
      HoldingCoversNone(s, e);
    }
  }

}
