/**
 The client's Sync rules (crates/roost-client-core/src/handle_sync.rs with sync/link.rs and
 sync/domain.rs): which frame is applied, held or refused, and what is acknowledged.

 The store's folds are abstracted to a log of the application frames applied, by arrival number, plus
 the effects a fold has on the link, the domain table and the hydration latch. An installed link is
 always open and accepting: the code clears both flags only in the step that removes the link.
 */
module SyncProtocol {

  import opened Basics

  datatype Domain = Terminal | Workers | Workspaces | Tasks | Mcp | Pair | Audit | Agent

  datatype Frame =
    | Subscribed(entries: seq<(Domain, nat, bool)>)
    | DomainReset(domain: Domain, generation: nat, subscribed: bool)
    /** A control with no handler: it closes the link that delivered it. */
    | Relocation
    /** A control that needs any subscription: UI state and commands, route and probe answers. */
    | Answer
    /** A control that needs some ready domain: input results, live metrics, host services, keepalive. */
    | Signal
    /** Data. A broken frame is one whose fold finds it inconsistent and closes the link. */
    | Application(of: Option<Domain>, body: nat, broken: bool)

  predicate IsControl(frame: Frame) {
    !frame.Application?
  }

  datatype DomainToken = DomainToken(generation: nat, subscribed: bool, ready: bool)

  /** One frame held until hydration, with the number of its arrival. */
  datatype Held = Held(frame: Frame, deliverySeq: nat, generation: nat, arrival: nat)

  /** One application frame as the socket of `generation` delivered it. */
  datatype Delivery = Delivery(generation: nat, deliverySeq: nat)

  /** A cumulative acknowledgement and the link it went out on. */
  datatype Ack = Ack(deliverySeq: nat, generation: nat)

  datatype Loss = Unsubscribed(arrival: nat) | Overflowed(arrival: nat) | Discarded(arrival: nat)

  datatype State = State(
    nextGeneration: nat,
    link: Option<nat>,
    domains: map<Domain, DomainToken>,
    retained: seq<Held>,
    hydrated: bool,
    // observations
    received: seq<Delivery>,
    applied: seq<nat>,
    lost: seq<Loss>,
    acks: seq<Ack>)

  const INITIAL := State(1, None, map[], [], false, [], [], [], [])

  /** How many frames are held before the oldest is dropped. */
  const RETAINED_MAX := 512

  // ---------------------------------------------------------------------------------------------
  // The link
  // ---------------------------------------------------------------------------------------------

  function BeginDial(s: State): State {
    s.(nextGeneration := s.nextGeneration + 1)
  }

  predicate Opens(s: State, generation: nat) {
    generation + 1 == s.nextGeneration && s.link.None?
  }

  function DiscardAll(retained: seq<Held>): seq<Loss> {
    seq(|retained|, i requires 0 <= i < |retained| => Discarded(retained[i].arrival))
  }

  /** Opening a link discards what an earlier link left held. */
  function OpenLink(s: State, generation: nat): State {
    if !Opens(s, generation) then s
    else s.(link := Some(generation), domains := map[], retained := [],
            lost := s.lost + DiscardAll(s.retained))
  }

  /** The link of `generation` closed, or is being replaced. */
  function CloseLink(s: State, generation: nat): State {
    if s.link != Some(generation) then s else s.(link := None, domains := map[])
  }

  predicate Ready(domains: map<Domain, DomainToken>, domain: Domain) {
    domain in domains && domains[domain].subscribed && domains[domain].ready
  }

  predicate MayApply(domains: map<Domain, DomainToken>, frame: Frame) {
    match frame
    case Subscribed(_) => true
    case DomainReset(_, _, _) => true
    case Relocation => domains != map[]
    case Answer => domains != map[]
    case Signal => exists d :: d in domains && Ready(domains, d)
    case Application(of, _, _) =>
      if of.Some? then Ready(domains, of.value) else exists d :: d in domains && Ready(domains, d)
  }

  // ---------------------------------------------------------------------------------------------
  // Frames
  // ---------------------------------------------------------------------------------------------

  function Announce(domains: map<Domain, DomainToken>, entries: seq<(Domain, nat, bool)>): map<Domain, DomainToken> {
    if entries == [] then domains
    else
      var last := entries[|entries| - 1];
      Announce(domains, entries[..|entries| - 1])[last.0 := DomainToken(last.1, last.2, false)]
  }

  predicate AnnouncesTerminal(entries: seq<(Domain, nat, bool)>) {
    exists i :: 0 <= i < |entries| && entries[i].0 == Terminal && entries[i].2
  }

  /** What applying a frame does to the link, the domains and the hydration latch. */
  function Fold(s: State, generation: nat, frame: Frame): State {
    match frame
    case Subscribed(entries) =>
      if s.link != Some(generation) then s
      else s.(domains := Announce(s.domains, entries), hydrated := !AnnouncesTerminal(entries))
    case DomainReset(domain, g, subscribed) =>
      if s.link != Some(generation) then s
      else s.(domains := s.domains[domain := DomainToken(g, subscribed, false)],
              hydrated := s.hydrated && !(domain.Terminal? && subscribed))
    case Relocation => CloseLink(s, generation)
    case Application(_, _, broken) => if broken then CloseLink(s, generation) else s
    case _ => s
  }

  function Retain(s: State, held: Held): State {
    if |s.retained| >= RETAINED_MAX then
      s.(retained := s.retained[1..] + [held], lost := s.lost + [Overflowed(s.retained[0].arrival)])
    else s.(retained := s.retained + [held])
  }

  function Acknowledge(s: State, deliverySeq: nat): State {
    if deliverySeq > 0 && s.link.Some? then s.(acks := s.acks + [Ack(deliverySeq, s.link.value)]) else s
  }

  /** `handle_sync_frame`. */
  function HandleFrame(s: State, generation: nat, deliverySeq: nat, frame: Frame): State {
    if IsControl(frame) then
      if !MayApply(s.domains, frame) then s
      else
        var t := Fold(s, generation, frame);
        if t.link == Some(generation) then Acknowledge(t, deliverySeq) else t
    else
      var arrival := |s.received|;
      var r := s.(received := s.received + [Delivery(generation, deliverySeq)]);
      if !s.hydrated then Retain(r, Held(frame, deliverySeq, generation, arrival))
      else if !MayApply(s.domains, frame) then r.(lost := r.lost + [Unsubscribed(arrival)])
      else
        var t := Fold(r.(applied := r.applied + [arrival]), generation, frame);
        if t.link == Some(generation) then Acknowledge(t, deliverySeq) else t
  }

  /** Applies the held frames from position `i` on; `highest` is the sequence to acknowledge so far. */
  function DrainFrom(s: State, held: seq<Held>, i: nat, highest: nat): (State, nat)
    requires i <= |held|
    decreases |held| - i
  {
    if i == |held| then (s, highest)
    else
      var h := held[i];
      var t := Fold(s.(applied := s.applied + [h.arrival]), h.generation, h.frame);
      DrainFrom(t, held, i + 1,
        if t.link == Some(h.generation) && h.deliverySeq > highest then h.deliverySeq else highest)
  }

  function Hydrate(s: State): State {
    var drained := DrainFrom(s.(hydrated := true, retained := []), s.retained, 0, 0);
    Acknowledge(drained.0, drained.1)
  }

  /** A domain's snapshot arrived for the generation it was asked for. */
  predicate TicketIsCurrent(s: State, generation: nat, domain: Domain, domainGeneration: nat) {
    && s.link == Some(generation) && domain in s.domains
    && s.domains[domain].generation == domainGeneration && s.domains[domain].subscribed && !s.domains[domain].ready
  }

  function PublishDomain(s: State, generation: nat, domain: Domain, domainGeneration: nat): State {
    if !TicketIsCurrent(s, generation, domain, domainGeneration) then s
    else
      var t := s.(domains := s.domains[domain := s.domains[domain].(ready := true)]);
      if domain.Terminal? then Hydrate(t) else t
  }

  // ---------------------------------------------------------------------------------------------
  // Runs
  // ---------------------------------------------------------------------------------------------

  datatype Event =
    | Dial
    | Open(generation: nat)
    | Close(generation: nat)
    | Receive(generation: nat, deliverySeq: nat, frame: Frame)
    | Publish(generation: nat, domain: Domain, domainGeneration: nat)

  function Step(s: State, e: Event): State {
    match e
    case Dial => BeginDial(s)
    case Open(generation) => OpenLink(s, generation)
    case Close(generation) => CloseLink(s, generation)
    case Receive(generation, deliverySeq, frame) => HandleFrame(s, generation, deliverySeq, frame)
    case Publish(generation, domain, domainGeneration) => PublishDomain(s, generation, domain, domainGeneration)
  }

  function Run(s: State, events: seq<Event>): State {
    if events == [] then s else Step(Run(s, events[..|events| - 1]), events[|events| - 1])
  }

}
