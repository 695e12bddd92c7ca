/** The Sync rules as the client core runs them: the store updated in place, acknowledgements pushed out. */
module SyncStore {

  import opened Basics
  import opened SyncProtocol
  import opened SyncProofs

  class Store {
    var nextGeneration: nat
    var link: Option<nat>
    var domains: map<Domain, DomainToken>
    var retained: seq<Held>
    var hydrated: bool
    var acks: seq<Ack>
    ghost var received: seq<Delivery>
    ghost var applied: seq<nat>
    ghost var lost: seq<Loss>
    /** How many application frames have arrived. */
    var arrivals: nat

    ghost predicate Valid()
      reads this
    {
      arrivals == |received|
    }

    ghost function Now(): State
      reads this
    {
      State(nextGeneration, link, domains, retained, hydrated, received, applied, lost, acks)
    }

    constructor ()
      ensures Valid() && Now() == INITIAL
    {
      nextGeneration, link, domains, retained, hydrated := 1, None, map[], [], false;
      acks, arrivals := [], 0;
      received, applied, lost := [], [], [];
    }

    method Dial() returns (generation: nat)
      requires Valid()
      modifies this`nextGeneration
      ensures Valid() && Now() == BeginDial(old(Now())) && generation == old(nextGeneration)
    {
      generation := nextGeneration;
      nextGeneration := nextGeneration + 1;
    }

    /**
     A live link is never displaced. A new one starts with nothing announced and nothing held: every
     frame that waited for hydration is lost, in arrival order, and none of them is applied or acknowledged.
     */
    method Open(generation: nat) returns (accepted: bool)
      requires Valid()
      modifies this`link, this`domains, this`retained, this`lost
      ensures Valid() && Now() == OpenLink(old(Now()), generation)
      ensures old(link).Some? ==> !accepted
      ensures !accepted ==> Now() == old(Now())
      ensures accepted ==> link == Some(generation) && Line(Now()) == old(applied)
      ensures LostArrivals(lost) + HeldArrivals(retained) == LostArrivals(old(lost)) + HeldArrivals(old(retained))
    {
      accepted := generation + 1 == nextGeneration && link.None?;
      if accepted {
        lost := lost + DiscardAll(retained);
        link, domains, retained := Some(generation), map[], [];
      }
    }

    /**
     The named link is not current afterwards and any other stays. No frame is lost by closing, and until
     the next announcement no application frame may be applied.
     */
    method Close(generation: nat)
      requires Valid()
      modifies this`link, this`domains
      ensures Valid() && Now() == CloseLink(old(Now()), generation)
      ensures link != Some(generation)
      ensures old(link).Some? && old(link) != Some(generation) ==> Now() == old(Now())
      ensures SameFrames(old(Now()), Now())
      ensures old(link) == Some(generation) ==> forall frame: Frame :: frame.Application? ==> !MayApply(domains, frame)
    {
      if link == Some(generation) {
        link, domains := None, map[];
      }
    }

    /** Takes an announcement of the current link, and of no other. */
    method InstallSubscribed(generation: nat, entries: seq<(SyncProtocol.Domain, nat, bool)>) returns (accepted: bool)
      requires Valid()
      modifies this`domains, this`hydrated
      ensures Valid() && accepted == (link == Some(generation))
      ensures !accepted ==> Now() == old(Now())
      ensures accepted ==>
        Now() == old(Now()).(domains := Announce(old(domains), entries), hydrated := !AnnouncesTerminal(entries))
    {
      accepted := link == Some(generation);
      if !accepted { return; }
      var announced := false;
      var i := 0;
      while i < |entries|
        invariant i <= |entries|
        invariant domains == Announce(old(domains), entries[..i])
        invariant announced <==> AnnouncesTerminal(entries[..i])
      {
        var (domain, generation, subscribed) := entries[i];
        assert entries[..i + 1][..i] == entries[..i];
        assert AnnouncesTerminal(entries[..i + 1]) <==>
          AnnouncesTerminal(entries[..i]) || (domain.Terminal? && subscribed) by {
          if AnnouncesTerminal(entries[..i]) {
            var j :| 0 <= j < i && entries[..i][j].0 == Terminal && entries[..i][j].2;
            assert entries[..i + 1][j] == entries[..i][j];
          }
          assert entries[..i + 1][i] == entries[i];
        }
        domains := domains[domain := DomainToken(generation, subscribed, false)];
        announced := announced || (domain.Terminal? && subscribed);
        i := i + 1;
      }
      assert entries[..i] == entries;
      hydrated := !announced;
    }

    /** What applying one admitted frame does here; its fold into the rest of the store is `applied`. */
    method ApplyFrame(generation: nat, frame: Frame)
      requires Valid()
      modifies this`link, this`domains, this`hydrated
      ensures Valid() && Now() == Fold(old(Now()), generation, frame)
    {
      match frame
      case Subscribed(entries) =>
        var _ := InstallSubscribed(generation, entries);
      case DomainReset(domain, g, subscribed) =>
        if link == Some(generation) {
          domains := domains[domain := DomainToken(g, subscribed, false)];
          if domain.Terminal? && subscribed { hydrated := false; }
        }
      case Relocation => Close(generation);
      case Application(_, _, broken) => if broken { Close(generation); }
      case Answer =>
      case Signal =>
    }

    method RetainFrame(held: Held)
      requires Valid()
      modifies this`retained, this`lost
      ensures Valid() && Now() == Retain(old(Now()), held)
    {
      if |retained| >= RETAINED_MAX {
        lost := lost + [Overflowed(retained[0].arrival)];
        retained := retained[1..];
      }
      retained := retained + [held];
    }

    method SendAck(deliverySeq: nat)
      requires Valid()
      modifies this`acks
      ensures Valid() && Now() == Acknowledge(old(Now()), deliverySeq)
    {
      if deliverySeq > 0 && link.Some? {
        acks := acks + [Ack(deliverySeq, link.value)];
      }
    }

    /** Applies one frame that arrived on the Sync socket, and acknowledges it. */
    method HandleSyncFrame(generation: nat, deliverySeq: nat, frame: Frame)
      requires Valid()
      modifies this
      ensures Valid() && Now() == HandleFrame(old(Now()), generation, deliverySeq, frame)
    {
      var arrival := arrivals;
      if !IsControl(frame) {
        received := received + [Delivery(generation, deliverySeq)];
        arrivals := arrivals + 1;
      }
      if !hydrated && !IsControl(frame) {
        RetainFrame(Held(frame, deliverySeq, generation, arrival));
        return;
      }
      if !MayApply(domains, frame) {
        if !IsControl(frame) { lost := lost + [Unsubscribed(arrival)]; }
        return;
      }
      if !IsControl(frame) { applied := applied + [arrival]; }
      ApplyFrame(generation, frame);
      if link != Some(generation) { return; }
      SendAck(deliverySeq);
    }

    /** Applies everything the queue held, in arrival order, and acknowledges what the current socket delivered. */
    method HydrateStore()
      requires Valid()
      modifies this`hydrated, this`retained, this`applied, this`link, this`domains, this`acks
      ensures Valid() && Now() == Hydrate(old(Now()))
    {
      var held := retained;
      hydrated, retained := true, [];
      ghost var start := Now();
      var highest := 0;
      var i := 0;
      while i < |held|
        invariant i <= |held| && Valid()
        invariant DrainFrom(Now(), held, i, highest) == DrainFrom(start, held, 0, 0)
      {
        applied := applied + [held[i].arrival];
        ApplyFrame(held[i].generation, held[i].frame);
        if link == Some(held[i].generation) && held[i].deliverySeq > highest {
          highest := held[i].deliverySeq;
        }
        i := i + 1;
      }
      SendAck(highest);
    }

    /** A snapshot answer for one domain; the terminal domain's ends the hold. */
    method Publish(generation: nat, domain: SyncProtocol.Domain, domainGeneration: nat)
      requires Valid()
      modifies this
      ensures Valid() && Now() == PublishDomain(old(Now()), generation, domain, domainGeneration)
    {
      if link == Some(generation) && domain in domains && domains[domain].generation == domainGeneration &&
         domains[domain].subscribed && !domains[domain].ready {
        domains := domains[domain := domains[domain].(ready := true)];
        if domain.Terminal? { HydrateStore(); }
      }
    }
  }

}
