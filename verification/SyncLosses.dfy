/**
 Which runs of the Sync rules keep the promises of the protocol: every frame applied exactly once,
 and every cumulative acknowledgement covering only applied frames.
 */
module SyncLosses {

  import opened Basics
  import opened SyncProtocol
  import opened SyncProofs

  // ---------------------------------------------------------------------------------------------
  // The steps that lose a frame
  // ---------------------------------------------------------------------------------------------

  /** The guard of the three branches that give a received application frame up. */
  predicate Loses(s: State, e: Event) {
    match e
    case Receive(_, _, frame) =>
      !IsControl(frame) && (if s.hydrated then !MayApply(s.domains, frame) else |s.retained| >= RETAINED_MAX)
    case Open(generation) => Opens(s, generation) && s.retained != []
    case _ => false
  }

  ghost predicate Lossless(events: seq<Event>) {
    forall i :: 0 <= i < |events| ==> !Loses(Run(INITIAL, events[..i]), events[i])
  }

  lemma StepLoses(s: State, e: Event)
    requires HeldAsReceived(s)
    ensures s.lost <= Step(s, e).lost
    ensures Step(s, e).lost == s.lost <==> !Loses(s, e)
  {
    match e
    case Dial =>
    case Open(_) =>
    case Close(_) =>
    case Receive(generation, deliverySeq, frame) =>
      FoldKeepsLogs(s, generation, frame);
      var r := Received(s, generation, deliverySeq);
      FoldKeepsLogs(r.(applied := r.applied + [|s.received|]), generation, frame);
    case Publish(generation, domain, domainGeneration) =>
      if TicketIsCurrent(s, generation, domain, domainGeneration) && domain.Terminal? {
        HydrateEffect(s.(domains := s.domains[domain := s.domains[domain].(ready := true)]));
      }
  }

  lemma LosslessOneMore(events: seq<Event>)
    requires events != []
    ensures var init, e := events[..|events| - 1], events[|events| - 1];
      Lossless(events) <==> Lossless(init) && !Loses(Run(INITIAL, init), e)
  {
    var init, e := events[..|events| - 1], events[|events| - 1];
    assert forall i :: 0 <= i < |init| ==> init[..i] == events[..i] && init[i] == events[i];
    if Lossless(init) && !Loses(Run(INITIAL, init), e) {
      forall i | 0 <= i < |events| ensures !Loses(Run(INITIAL, events[..i]), events[i]) {
        assert i < |init| ==> !Loses(Run(INITIAL, init[..i]), init[i]);
      }
    }
  }

  /** A run loses no frame exactly when none of its steps meets one of the losing guards. */
  lemma {:induction false} LostNothingIff(events: seq<Event>)
    ensures Run(INITIAL, events).lost == [] <==> Lossless(events)
  {
    if events != [] {
      var init, e := events[..|events| - 1], events[|events| - 1];
      LostNothingIff(init);
      RunConserves(init);
      StepLoses(Run(INITIAL, init), e);
      LosslessOneMore(events);
    }
  }

  // ---------------------------------------------------------------------------------------------
  // Exactly once
  // ---------------------------------------------------------------------------------------------

  lemma {:induction false} AtLeastIndex(a: seq<nat>, i: nat)
    requires Increasing(a) && i < |a|
    ensures a[i] >= i
  {
    if i > 0 {
      AtLeastIndex(a, i - 1);
      assert a[i - 1] < a[i];
    }
  }

  lemma {:induction false} AtMostIndex(a: seq<nat>, n: nat, i: nat)
    requires Increasing(a) && i < |a| && |a| == n && forall x :: x in a ==> x < n
    ensures a[i] <= i
    decreases n - i
  {
    if i + 1 < |a| {
      AtMostIndex(a, n, i + 1);
      assert a[i] < a[i + 1];
    } else {
      assert a[i] in a;
    }
  }

  lemma FullIncreasingIsUpto(a: seq<nat>, n: nat)
    requires Increasing(a) && |a| == n && forall x :: x in a ==> x < n
    ensures a == Upto(n)
  {
    forall i | 0 <= i < n ensures a[i] == i {
      AtLeastIndex(a, i);
      AtMostIndex(a, n, i);
    }
  }

  /** Counting: as many frames were received as were applied, are held or were lost. */
  lemma FramesAddUp(s: State)
    requires Conserved(s)
    ensures |s.applied| + |s.retained| + |s.lost| == |s.received|
  {
    var a, h, l := multiset(s.applied), multiset(HeldArrivals(s.retained)), multiset(LostArrivals(s.lost));
    assert |a| == |s.applied| && |h| == |s.retained| && |l| == |s.lost|;
    assert |a + h + l| == |multiset(Upto(|s.received|))|;
  }

  lemma LostNothingIsInLine(s: State)
    requires Conserved(s) && s.lost == [] && s.retained == [] && InOrder(s)
    ensures s.applied == Upto(|s.received|)
  {
    FramesAddUp(s);
    assert Line(s) == s.applied;
    forall i | i in s.applied ensures i < |s.received| { LineIsReceived(s, i); }
    FullIncreasingIsUpto(s.applied, |s.received|);
  }

  /** Some frame stands in line before an earlier one. */
  ghost predicate OutOfOrder(line: seq<nat>, i: nat, j: nat) {
    i < j < |line| && line[i] > line[j]
  }

  lemma LiveStaysDisordered(s: State, e: Event, i: nat, j: nat)
    requires OutOfOrder(Line(s), i, j) && e.Receive? && AppliesLive(s, e.frame)
    ensures !InOrder(Step(s, e))
  {
    var k := |s.applied|;
    LiveLine(s, e.generation, e.deliverySeq, e.frame);
    var line := Line(Step(s, e));
    var i', j' := if i < k then i else i + 1, if j < k then j else j + 1;
    assert line[i'] == Line(s)[i] && line[j'] == Line(s)[j];
  }

  /** A step that loses nothing keeps a line that is out of order so: frames join it and never leave. */
  lemma StepStaysDisordered(s: State, e: Event, i: nat, j: nat)
    requires Inv(s) && OutOfOrder(Line(s), i, j) && !Loses(s, e)
    ensures !InOrder(Step(s, e))
  {
    var t := Step(s, e);
    match e
    case Receive(generation, deliverySeq, frame) =>
      if IsControl(frame) {
        FoldKeepsLogs(s, generation, frame);
        assert Line(t) == Line(s);
      } else if s.hydrated {
        LiveStaysDisordered(s, e, i, j);
      } else {
        assert HeldArrivals(t.retained) == HeldArrivals(s.retained) + [|s.received|];
        assert Line(t) == Line(s) + [|s.received|];
        assert Line(t)[i] == Line(s)[i] && Line(t)[j] == Line(s)[j];
      }
    case Publish(generation, domain, domainGeneration) =>
      if TicketIsCurrent(s, generation, domain, domainGeneration) && domain.Terminal? {
        HydrateLine(s.(domains := s.domains[domain := s.domains[domain].(ready := true)]));
      }
      assert Line(t) == Line(s);
    case Open(_) => assert Line(t) == Line(s);
    case _ => assert Line(t) == Line(s);
  }

  /** In a lossless run the line at the end is in order if and only if no frame overtook another. */
  lemma {:induction false} LosslessOrderIff(events: seq<Event>)
    requires Lossless(events)
    ensures InOrder(Run(INITIAL, events)) <==> NeverOvertakes(events)
  {
    if NeverOvertakes(events) {
      RunStaysInOrder(events);
    } else {
      var init, e := events[..|events| - 1], events[|events| - 1];
      var s := Run(INITIAL, init);
      LosslessOneMore(events);
      NeverOvertakesOneMore(events);
      LosslessOrderIff(init);
      RunConserves(init);
      if NeverOvertakes(init) {
        StepOrderedIff(s, e);
      } else {
        var i, j :| 0 <= i < j < |Line(s)| && !(Line(s)[i] < Line(s)[j]);
        DistinctInLine(s, i, j);
        StepStaysDisordered(s, e, i, j);
      }
    }
  }

  lemma CountsOnce(line: seq<nat>, i: nat, j: nat)
    requires i < j < |line| && multiset(line)[line[i]] <= 1
    ensures line[i] != line[j]
  {
    var rest := line[i + 1..];
    assert line == line[..i] + [line[i]] + rest;
    assert line[j] == rest[j - i - 1] && line[j] in multiset(rest);
  }

  lemma DistinctInLine(s: State, i: nat, j: nat)
    requires Conserved(s) && i < j < |Line(s)|
    ensures Line(s)[i] != Line(s)[j]
  {
    UptoCounts(|s.received|, Line(s)[i]);
    assert multiset(Line(s)) == multiset(s.applied) + multiset(HeldArrivals(s.retained));
    CountsOnce(Line(s), i, j);
  }

  /**
   Every application frame received has been applied, exactly once and in arrival order, if and only
   if the run met none of the losing guards, applied no frame while earlier ones were held, and holds
   none at its end.
   */
  lemma ExactlyOnceIff(events: seq<Event>)
    ensures var s := Run(INITIAL, events);
      s.applied == Upto(|s.received|) <==> Lossless(events) && NeverOvertakes(events) && s.retained == []
  {
    var s := Run(INITIAL, events);
    RunConserves(events);
    LostNothingIff(events);
    FramesAddUp(s);
    if Lossless(events) { LosslessOrderIff(events); }
    if Lossless(events) && NeverOvertakes(events) && s.retained == [] {
      LostNothingIsInLine(s);
    }
    if s.applied == Upto(|s.received|) {
      assert s.lost == [] && s.retained == [];
      assert Line(s) == s.applied;
    }
  }

  // ---------------------------------------------------------------------------------------------
  // Coverage
  // ---------------------------------------------------------------------------------------------

  ghost predicate NeverAcksPastHeld(events: seq<Event>) {
    forall i :: 0 <= i < |events| ==> !AcksPastHeld(Run(INITIAL, events[..i]), events[i])
  }

  lemma PrefixNeverAcksPastHeld(events: seq<Event>)
    requires events != [] && NeverAcksPastHeld(events)
    ensures NeverAcksPastHeld(events[..|events| - 1])
    ensures !AcksPastHeld(Run(INITIAL, events[..|events| - 1]), events[|events| - 1])
  {
    var init := events[..|events| - 1];
    forall i | 0 <= i < |init| ensures !AcksPastHeld(Run(INITIAL, init[..i]), init[i]) {
      assert init[..i] == events[..i] && init[i] == events[i];
    }
  }

  lemma SequencedPrefix(events: seq<Event>)
    requires events != [] && Sequenced(Deliveries(events))
    ensures Sequenced(Deliveries(events[..|events| - 1]))
  {
    var a, b := Deliveries(events[..|events| - 1]), Deliveries(events);
    assert a <= b;
    forall i | 0 <= i < |a| ensures a[i].deliverySeq > 0 { assert a[i] == b[i]; }
    forall i, j | 0 <= i < j < |a| && a[i].generation == a[j].generation ensures a[i].deliverySeq < a[j].deliverySeq {
      assert a[i] == b[i] && a[j] == b[j];
    }
  }

  /** The coordinator numbers each link's frames upward, and controls not at all. */
  ghost predicate Proper(events: seq<Event>) {
    ControlsUnsequenced(events) && Sequenced(Deliveries(events))
  }

  lemma ProperPrefix(events: seq<Event>)
    requires events != [] && Proper(events)
    ensures Proper(events[..|events| - 1])
  {
    SequencedPrefix(events);
  }

  lemma ProperStep(events: seq<Event>)
    requires events != [] && Proper(events)
    requires NoneCoveredIsHeld(Run(INITIAL, events[..|events| - 1]))
    ensures NoneCoveredIsHeld(Run(INITIAL, events)) <==>
      !AcksPastHeld(Run(INITIAL, events[..|events| - 1]), events[|events| - 1])
  {
    var init, e := events[..|events| - 1], events[|events| - 1];
    ProperPrefix(events);
    ReceivedIsDelivered(events);
    RunConserves(init);
    RunAcknowledgesApplied(init);
    StepCoversNoneIff(Run(INITIAL, init), e);
  }

  lemma {:induction false} RunCoversNone(events: seq<Event>)
    requires Proper(events) && NeverAcksPastHeld(events)
    ensures NoneCoveredIsHeld(Run(INITIAL, events))
  {
    if events != [] {
      PrefixNeverAcksPastHeld(events);
      ProperPrefix(events);
      RunCoversNone(events[..|events| - 1]);
      ProperStep(events);
    }
  }

  lemma {:induction false} ProperUpTo(events: seq<Event>, k: nat)
    requires k <= |events| && Proper(events)
    ensures Proper(events[..k])
    decreases |events|
  {
    if k < |events| {
      ProperPrefix(events);
      ProperUpTo(events[..|events| - 1], k);
      assert events[..|events| - 1][..k] == events[..k];
    } else {
      assert events[..k] == events;
    }
  }

  /** At every moment of the run, no acknowledgement covers a frame that is still held. */
  ghost predicate NeverCoversHeld(events: seq<Event>) {
    forall k :: 0 <= k <= |events| ==> NoneCoveredIsHeld(Run(INITIAL, events[..k]))
  }

  lemma CoversHeldOnlyPastIt(events: seq<Event>, k: nat)
    requires Proper(events) && NeverAcksPastHeld(events) && k <= |events|
    ensures NoneCoveredIsHeld(Run(INITIAL, events[..k]))
  {
    var part := events[..k];
    forall i | 0 <= i < |part| ensures !AcksPastHeld(Run(INITIAL, part[..i]), part[i]) {
      assert part[..i] == events[..i] && part[i] == events[i];
    }
    ProperUpTo(events, k);
    RunCoversNone(part);
  }

  lemma PastHeldIsSeen(events: seq<Event>, i: nat)
    requires Proper(events) && i < |events|
    requires NoneCoveredIsHeld(Run(INITIAL, events[..i])) && NoneCoveredIsHeld(Run(INITIAL, events[..i + 1]))
    ensures !AcksPastHeld(Run(INITIAL, events[..i]), events[i])
  {
    var next := events[..i + 1];
    assert next[..|next| - 1] == events[..i] && next[|next| - 1] == events[i];
    ProperUpTo(events, i + 1);
    ProperStep(next);
  }

  /**
   No acknowledgement ever covers a frame that is still held, if and only if no step acknowledges the
   frame it receives while an earlier one of the same link is held.
   */
  lemma NeverCoversHeldIff(events: seq<Event>)
    requires Proper(events)
    ensures NeverCoversHeld(events) <==> NeverAcksPastHeld(events)
  {
    if NeverAcksPastHeld(events) {
      forall k | 0 <= k <= |events|
        ensures NoneCoveredIsHeld(Run(INITIAL, events[..k])) { CoversHeldOnlyPastIt(events, k); }
    }
    if NeverCoversHeld(events) {
      forall i | 0 <= i < |events|
        ensures !AcksPastHeld(Run(INITIAL, events[..i]), events[i]) { PastHeldIsSeen(events, i); }
    }
  }

  lemma SomewhereOnce(s: State, i: nat)
    requires Conserved(s) && i < |s.received| && i !in HeldArrivals(s.retained)
    ensures i in s.applied || i in LostArrivals(s.lost)
  {
    UptoCounts(|s.received|, i);
    assert multiset(HeldArrivals(s.retained))[i] == 0;
  }

  /**
   A frame that an acknowledgement covers has been applied, is still held behind one that overtook
   it, or was given up by one of the losing guards. So in a lossless run whose steps acknowledge
   nothing past a held frame, every acknowledgement covers only applied frames.
   */
  lemma AcksCoverAppliedFrames(events: seq<Event>, a: Ack, i: nat)
    requires Proper(events)
    requires a in Run(INITIAL, events).acks && Covers(Run(INITIAL, events), a, i)
    ensures var s := Run(INITIAL, events);
      && (i in s.applied || i in LostArrivals(s.lost) || i in HeldArrivals(s.retained))
      && (Lossless(events) ==> i !in LostArrivals(s.lost))
      && (NeverAcksPastHeld(events) ==> i !in HeldArrivals(s.retained))
  {
    var s := Run(INITIAL, events);
    RunConserves(events);
    LostNothingIff(events);
    if NeverAcksPastHeld(events) {
      RunCoversNone(events);
      var k :| 0 <= k < |s.acks| && s.acks[k] == a;
    }
    if i !in HeldArrivals(s.retained) { SomewhereOnce(s, i); }
  }

  // ---------------------------------------------------------------------------------------------
  // Runs that break the promise
  // ---------------------------------------------------------------------------------------------

  function HeldFrame(i: nat): Held {
    Held(Application(Some(Terminal), i, false), i + 1, 1, i)
  }

  /** A link announces the terminal domain and delivers `k` frames before its snapshot arrives. */
  function SlowSnapshot(k: nat): seq<Event> {
    if k == 0 then [Dial, Open(1), Receive(1, 0, Subscribed([(Terminal, 1, true)]))]
    else SlowSnapshot(k - 1) + [Receive(1, k, Application(Some(Terminal), k - 1, false))]
  }

  ghost predicate SlowState(s: State, k: nat) {
    && s.nextGeneration == 2 && s.link == Some(1) && s.domains == map[Terminal := DomainToken(1, true, false)] &&
      !s.hydrated
    && s.applied == [] && s.acks == [] && |s.received| == k
    && |s.retained| == (if k <= RETAINED_MAX then k else RETAINED_MAX)
    && forall j :: 0 <= j < |s.retained| ==> s.retained[j] == HeldFrame(k - |s.retained| + j)
  }

  lemma RunOneMore(events: seq<Event>, e: Event)
    ensures Run(INITIAL, events + [e]) == Step(Run(INITIAL, events), e)
  {
    assert (events + [e])[..|events|] == events;
  }

  lemma AnnounceTerminal(domains: map<Domain, DomainToken>)
    ensures var entries := [(Terminal, 1, true)];
      Announce(domains, entries) == domains[Terminal := DomainToken(1, true, false)] && AnnouncesTerminal(entries)
  {
    var entries: seq<(Domain, nat, bool)> := [(Terminal, 1, true)];
    assert entries[..0] == [] && entries[0].0 == Terminal && entries[0].2;
  }

  /** The state once the first link is open. */
  const OPENED := INITIAL.(nextGeneration := 2, link := Some(1))

  lemma FirstLink()
    ensures Run(INITIAL, [Dial, Open(1)]) == OPENED
  {
    var none: seq<Event> := [];
    assert [Dial, Open(1)] == none + [Dial] + [Open(1)];
    RunOneMore(none, Dial);
    RunOneMore(none + [Dial], Open(1));
    assert DiscardAll([]) == [];
  }

  lemma SlowStart()
    ensures SlowState(Run(INITIAL, SlowSnapshot(0)), 0)
  {
    var announce := Receive(1, 0, Subscribed([(Terminal, 1, true)]));
    assert SlowSnapshot(0) == [Dial, Open(1)] + [announce];
    FirstLink();
    RunOneMore([Dial, Open(1)], announce);
    AnnounceTerminal(map[]);
  }

  lemma SlowStep(s: State, k: nat)
    requires SlowState(s, k)
    ensures SlowState(HandleFrame(s, 1, k + 1, Application(Some(Terminal), k, false)), k + 1)
  {
    var t := HandleFrame(s, 1, k + 1, Application(Some(Terminal), k, false));
    assert t.retained == (if |s.retained| >= RETAINED_MAX then s.retained[1..] else s.retained) + [HeldFrame(k)];
  }

  lemma SlowOneMore(events: seq<Event>, k: nat)
    requires SlowState(Run(INITIAL, events), k)
    ensures SlowState(Run(INITIAL, events + [Receive(1, k + 1, Application(Some(Terminal), k, false))]), k + 1)
  {
    RunOneMore(events, Receive(1, k + 1, Application(Some(Terminal), k, false)));
    SlowStep(Run(INITIAL, events), k);
  }

  lemma {:induction false} SlowSnapshotHolds(k: nat)
    ensures SlowState(Run(INITIAL, SlowSnapshot(k)), k)
  {
    if k == 0 {
      SlowStart();
    } else {
      SlowSnapshotHolds(k - 1);
      SlowOneMore(SlowSnapshot(k - 1), k - 1);
    }
  }

  /** Unbroken frames of the current link leave it in place and raise the sequence to the last one. */
  lemma {:induction false} DrainReachesLast(s: State, held: seq<Held>, i: nat, highest: nat, first: nat)
    requires i <= |held| && s.link == Some(1) && forall j :: 0 <= j < |held| ==> held[j] == HeldFrame(first + j)
    requires highest == if i == 0 then 0 else first + i
    ensures var (t, h) := DrainFrom(s, held, i, highest);
      t.link == Some(1) && h == if |held| == 0 then 0 else first + |held|
    decreases |held| - i
  {
    if i < |held| {
      var t := Fold(s.(applied := s.applied + [held[i].arrival]), held[i].generation, held[i].frame);
      DrainReachesLast(t, held, i + 1, first + i + 1, first);
    }
  }

  lemma SlowHydration(s: State, k: nat)
    requires s.link == Some(1) && s.applied == [] && s.acks == [] && k >= |s.retained| > 0
    requires HeldAsReceived(s) && forall j :: 0 <= j < |s.retained| ==> s.retained[j] == HeldFrame(k - |s.retained| + j)
    ensures var t := Hydrate(s);
      t.hydrated && t.received == s.received && t.acks == [Ack(k, 1)] && t.applied == HeldArrivals(s.retained)
  {
    var start := s.(hydrated := true, retained := []);
    HydrateEffect(s);
    DrainReachesLast(start, s.retained, 0, 0, k - |s.retained|);
    DrainEffect(start, s.retained, 0, 0);
  }

  /**
   After a hydration that `k` frames waited for, the client acknowledges all `k`. All of them were
   applied exactly when at most 512 waited: beyond that the oldest were dropped, and the coordinator
   is told that they were processed.
   */
  lemma SlowSnapshotIsCoveredIff(k: nat)
    requires k > 0
    ensures var s := Run(INITIAL, SlowSnapshot(k) + [Publish(1, Terminal, 1)]);
      && s.hydrated && |s.received| == k && s.acks == [Ack(k, 1)]
      && (s.applied == Upto(k) <==> k <= RETAINED_MAX)
  {
    SlowSnapshotHolds(k);
    RunConserves(SlowSnapshot(k));
    RunOneMore(SlowSnapshot(k), Publish(1, Terminal, 1));
    var s := Run(INITIAL, SlowSnapshot(k));
    var r := s.(domains := s.domains[Terminal := s.domains[Terminal].(ready := true)]);
    SlowHydration(r, k);
    if k <= RETAINED_MAX {
      assert HeldArrivals(r.retained) == Upto(k);
    } else {
      assert |HeldArrivals(r.retained)| != |Upto(k)|;
    }
  }

  /** The run that holds one frame, loses its link and hydrates on the next. */
  function RedialedRun(): seq<Event> {
    SlowSnapshot(1) + [Close(1)] + [Dial] + [Open(2)] +
    [Receive(2, 0, Subscribed([(Terminal, 1, true)]))] + [Publish(2, Terminal, 1)]
  }

  /** A frame still held when its link is replaced is never applied, although hydration completes. */
  lemma RedialDiscardsHeldFrame()
    ensures var s := Run(INITIAL, RedialedRun());
      s.hydrated && |s.received| == 1 && s.applied == []
  {
    var es := SlowSnapshot(1);
    SlowSnapshotHolds(1);
    var announce := Receive(2, 0, Subscribed([(Terminal, 1, true)]));
    RunOneMore(es, Close(1));
    RunOneMore(es + [Close(1)], Dial);
    RunOneMore(es + [Close(1)] + [Dial], Open(2));
    RunOneMore(es + [Close(1)] + [Dial] + [Open(2)], announce);
    RunOneMore(es + [Close(1)] + [Dial] + [Open(2)] + [announce], Publish(2, Terminal, 1));
    AnnounceTerminal(map[]);
  }

  /** The run that delivers a frame before an announcement without the terminal domain. */
  function StrandingRun(): seq<Event> {
    [Dial] + [Open(1)] + [Receive(1, 1, Application(Some(Terminal), 0, false))] +
    [Receive(1, 0, Subscribed([(Workers, 1, true)]))] + [Publish(1, Workers, 1)] +
    [Receive(1, 2, Application(Some(Workers), 0, false))]
  }

  /** There the client acknowledges frame 2 while frame 1 of the same link is still held. */
  lemma StrandedFrameIsAcknowledged()
    ensures var s := Run(INITIAL, StrandingRun());
      && s.acks == [Ack(2, 1)] && s.received == [Delivery(1, 1), Delivery(1, 2)]
      && s.applied == [1] && HeldArrivals(s.retained) == [0]
  {
    var held := Receive(1, 1, Application(Some(Terminal), 0, false));
    var announce := Receive(1, 0, Subscribed([(Workers, 1, true)]));
    var live := Receive(1, 2, Application(Some(Workers), 0, false));
    assert [Dial] == [] + [Dial];
    RunOneMore([], Dial);
    RunOneMore([Dial], Open(1));
    RunOneMore([Dial] + [Open(1)], held);
    RunOneMore([Dial] + [Open(1)] + [held], announce);
    RunOneMore([Dial] + [Open(1)] + [held] + [announce], Publish(1, Workers, 1));
    RunOneMore([Dial] + [Open(1)] + [held] + [announce] + [Publish(1, Workers, 1)], live);
    assert announce.frame.entries[..0] == [];
    assert Announce(map[], announce.frame.entries) == map[Workers := DomainToken(1, true, false)];
  }

}
