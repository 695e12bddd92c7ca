/**
 Background jobs (crates/roost-agent-tools/src/jobs.rs): the registry of one worker, what each call
 changes, and what it reports. Times become the set of conversations that have been idle long enough.
 */
module Jobs {

  import opened Basics
  import opened Numerals

  datatype State = Running | Completed | Failed | Cancelled

  datatype Outcome = Outcome(isError: bool, content: string, exitCode: Option<int>)

  /** A job's record; `token` is its cancellation token, which no other job has. */
  datatype Job = Job(command: string, token: nat, state: State, isError: bool, output: string, exitCode: Option<int>)

  datatype Conversation = Conversation(nextNumber: nat, jobs: map<nat, Job>)

  type Id = string

  /** What is sent on the settled channel. */
  datatype SettledJob = SettledJob(conversation: Id, number: nat, command: string, state: State, isError: bool,
    output: string, exitCode: Option<int>)

  /** The conversations, and the tokens cancelled so far. */
  datatype Registry = Registry(conversations: map<Id, Conversation>, cancelled: set<nat>)

  const MAX_RUNNING_JOBS := 15
  const SETTLED_RETENTION := 100

  const NEW_CONVERSATION := Conversation(1, map[])

  /** The numbers below `bound` of the running jobs, or of the settled ones, in order. */
  function Numbers(jobs: map<nat, Job>, bound: nat, running: bool): seq<nat> {
    if bound == 0 then []
    else
      var n := bound - 1;
      Numbers(jobs, n, running) + (if n in jobs && jobs[n].state.Running? == running then [n] else [])
  }

  function RunningCount(c: Conversation): nat {
    |Numbers(c.jobs, c.nextNumber, true)|
  }

  function ConversationOf(r: Registry, id: Id): Conversation {
    if id in r.conversations then r.conversations[id] else NEW_CONVERSATION
  }

  function With(r: Registry, id: Id, c: Conversation): Registry {
    r.(conversations := r.conversations[id := c])
  }

  // ---------------------------------------------------------------------------------------------
  // The calls
  // ---------------------------------------------------------------------------------------------

  function NewJob(command: string, token: nat): Job {
    Job(command, token, Running, false, "", None)
  }

  /** The new job's number, unless the conversation has its fill of running jobs. */
  function Register(r: Registry, id: Id, command: string, token: nat): (Registry, Option<nat>) {
    var c := ConversationOf(r, id);
    if RunningCount(c) >= MAX_RUNNING_JOBS then (With(r, id, c), None)
    else (With(r, id, Conversation(c.nextNumber + 1, c.jobs[c.nextNumber := NewJob(command, token)])),
      Some(c.nextNumber))
  }

  function Without(jobs: map<nat, Job>, numbers: seq<nat>): map<nat, Job> {
    map n | n in jobs && n !in numbers :: jobs[n]
  }

  /** The oldest settled jobs past the hundred that are kept. */
  function Excess(c: Conversation): seq<nat> {
    var settled := Numbers(c.jobs, c.nextNumber, false);
    settled[..if |settled| > SETTLED_RETENTION then |settled| - SETTLED_RETENTION else 0]
  }

  function Pruned(c: Conversation): Conversation {
    c.(jobs := Without(c.jobs, Excess(c)))
  }

  function FinalState(cancelled: bool, outcome: Outcome): State {
    if cancelled then Cancelled else if outcome.isError then Failed else Completed
  }

  function SettleJob(job: Job, cancelled: bool, outcome: Outcome): Job {
    job.(state := FinalState(cancelled, outcome), isError := outcome.isError, output := outcome.content,
      exitCode := outcome.exitCode)
  }

  predicate IsRunning(r: Registry, id: Id, number: nat) {
    id in r.conversations && number in r.conversations[id].jobs && r.conversations[id].jobs[number].state.Running?
  }

  /** Settles a running job and reports it; any other job is left as it is. */
  function Settle(r: Registry, id: Id, number: nat, outcome: Outcome): (Registry, Option<SettledJob>) {
    if !IsRunning(r, id, number) then (r, None)
    else
      var c := r.conversations[id];
      var job := SettleJob(c.jobs[number], c.jobs[number].token in r.cancelled, outcome);
      (With(r, id, Pruned(c.(jobs := c.jobs[number := job]))),
       Some(SettledJob(id, number, job.command, job.state, outcome.isError, outcome.content, outcome.exitCode)))
  }

  /** The tokens of a conversation's running jobs. */
  function RunningTokens(c: Conversation): set<nat> {
    set n | n in c.jobs && c.jobs[n].state.Running? :: c.jobs[n].token
  }

  function CancelRunning(r: Registry, id: Id): Registry {
    if id !in r.conversations then r else r.(cancelled := r.cancelled + RunningTokens(r.conversations[id]))
  }

  function CancelAll(r: Registry): Registry {
    r.(cancelled := r.cancelled + set id, n | id in r.conversations && n in r.conversations[id].jobs &&
                                     r.conversations[id].jobs[n].state.Running? :: r.conversations[id].jobs[n].token)
  }

  function CancelJob(r: Registry, id: Id, number: nat): Registry {
    if !IsRunning(r, id, number) then r else r.(cancelled := r.cancelled + {r.conversations[id].jobs[number].token})
  }

  function Close(r: Registry, id: Id): Registry {
    var cancelled := CancelRunning(r, id);
    cancelled.(conversations := cancelled.conversations - {id})
  }

  function EvictIdle(r: Registry, idle: set<Id>): Registry {
    r.(conversations := map id |
        id in r.conversations && (RunningCount(r.conversations[id]) > 0 || id !in idle) :: r.conversations[id])
  }

  // ---------------------------------------------------------------------------------------------
  // Job ids
  // ---------------------------------------------------------------------------------------------

  const BG: seq<Byte> := [0x62, 0x67, 0x5F]
  const PLUS: Byte := 0x2B

  /** `bg_` and the number in decimal. */
  function JobIdFor(number: nat): seq<Byte> {
    BG + Decimal(number)
  }

  /** Rust's unsigned parse: digits onto an accumulator, refused on overflow or anything else. */
  function ParseDigits(s: seq<Byte>, number: nat): Option<nat> {
    if number > UINT64_MAX then None
    else if s == [] then Some(number)
    else if !IsDigit(s[0]) then None
    else ParseDigits(s[1..], number * 10 + DigitOf(s[0]))
  }

  function ParseU64(s: seq<Byte>): Option<nat> {
    var digits := if s != [] && s[0] == PLUS then s[1..] else s;
    if digits == [] then None else ParseDigits(digits, 0)
  }

  function ParseJobNumber(id: seq<Byte>): Option<nat> {
    if BG <= id then ParseU64(id[|BG|..]) else None
  }

  lemma {:induction false} DigitsStep(n: nat, rest: seq<Byte>)
    ensures ParseDigits(Decimal(n) + rest, 0) == ParseDigits(rest, n)
    decreases n
  {
    if n < 10 {
      assert (Decimal(n) + rest)[1..] == rest;
    } else {
      var last := [Digit(n % 10)];
      DigitsStep(n / 10, last + rest);
      assert Decimal(n) + rest == Decimal(n / 10) + (last + rest);
      assert (last + rest)[1..] == rest;
      if n / 10 > UINT64_MAX { OverflowStays(rest, n); }
    }
  }

  lemma OverflowStays(s: seq<Byte>, number: nat)
    requires number > UINT64_MAX
    ensures ParseDigits(s, number) == None
  {
  }

  /** Exactly the numbers of 64 bits come back from their job id. */
  lemma JobIdReadsBackIff(n: nat)
    ensures ParseJobNumber(JobIdFor(n)) == if n <= UINT64_MAX then Some(n) else None
  {
    var d := Decimal(n);
    DigitsStep(n, []);
    assert d + [] == d;
    assert JobIdFor(n)[|BG|..] == d;
  }

}
