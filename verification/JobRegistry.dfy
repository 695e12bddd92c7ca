/** The registry as the worker drives it: conversations updated in place, reports sent as jobs settle. */
module JobRegistryClass {

  import opened Basics
  import opened Jobs
  import opened JobProofs

  /** The numbers of running or of settled jobs, in order. */
  method CollectNumbers(c: Conversation, running: bool) returns (found: seq<nat>)
    ensures found == Numbers(c.jobs, c.nextNumber, running)
  {
    found := [];
    for n := 0 to c.nextNumber
      invariant found == Numbers(c.jobs, n, running)
    {
      if n in c.jobs && c.jobs[n].state.Running? == running { found := found + [n]; }
    }
  }

  /** Keeps the newest hundred settled jobs; running jobs are never pruned. */
  method PruneSettled(c: Conversation) returns (pruned: Conversation)
    ensures pruned == Pruned(c)
  {
    var settled := CollectNumbers(c, false);
    var excess := if |settled| > SETTLED_RETENTION then |settled| - SETTLED_RETENTION else 0;
    var jobs := c.jobs;
    for i := 0 to excess
      invariant jobs == Without(c.jobs, settled[..i])
    {
      assert settled[..i + 1] == settled[..i] + [settled[i]];
      jobs := jobs - {settled[i]};
    }
    pruned := c.(jobs := jobs);
  }

  /** No number this conversation gave out belongs to a running job. */
  ghost predicate NothingRuns(c: Conversation) {
    forall n :: n in c.jobs && n < c.nextNumber ==> !c.jobs[n].state.Running?
  }

  lemma NothingRunsIff(c: Conversation)
    ensures RunningCount(c) == 0 <==> NothingRuns(c)
  {
    var running := Numbers(c.jobs, c.nextNumber, true);
    forall n: nat ensures n in running <==> n < c.nextNumber && n in c.jobs && c.jobs[n].state.Running? {
      NumbersAre(c.jobs, c.nextNumber, true, n);
    }
    if running != [] { assert running[0] in running; }
  }

  /** The conversations of `seen` that an eviction keeps. */
  ghost function Kept(before: map<Id, Conversation>, seen: set<Id>, idle: set<Id>): map<Id, Conversation> {
    map id | id in before && id in seen && (RunningCount(before[id]) > 0 || id !in idle) :: before[id]
  }

  class JobRegistry {
    var conversations: map<Id, Conversation>
    var cancelled: set<nat>
    /** The settled channel. */
    var settledJobs: seq<SettledJob>

    ghost function Now(): Registry
      reads this
    {
      Registry(conversations, cancelled)
    }

    constructor ()
      ensures Now() == Registry(map[], {}) && settledJobs == []
    {
      conversations, cancelled, settledJobs := map[], {}, [];
    }

    method Register(id: Id, command: string, token: nat) returns (number: Option<nat>)
      modifies this`conversations
      ensures Now() == Jobs.Register(old(Now()), id, command, token).0
      ensures number == Jobs.Register(old(Now()), id, command, token).1
    {
      if id !in conversations { conversations := conversations[id := NEW_CONVERSATION]; }
      var c := conversations[id];
      assert conversations == With(old(Now()), id, c).conversations;
      var running := CollectNumbers(c, true);
      if |running| >= MAX_RUNNING_JOBS { return None; }
      var job := NewJob(command, token);
      conversations := conversations[id := Conversation(c.nextNumber + 1, c.jobs[c.nextNumber := job])];
      number := Some(c.nextNumber);
    }

    /** Records the outcome of a running job and reports it; settles nothing else. */
    method Settle(id: Id, number: nat, outcome: Outcome)
      modifies this`conversations, this`settledJobs
      ensures Now() == Jobs.Settle(old(Now()), id, number, outcome).0
      ensures var report := Jobs.Settle(old(Now()), id, number, outcome).1;
        settledJobs == old(settledJobs) + (if report.None? then [] else [report.value])
    {
      if id !in conversations || number !in conversations[id].jobs { return; }
      var c := conversations[id];
      var job := c.jobs[number];
      if !job.state.Running? { return; }
      var state := if job.token in cancelled then Cancelled else if outcome.isError then Failed else Completed;
      var settled := job.(state := state, isError := outcome.isError, output := outcome.content,
        exitCode := outcome.exitCode);
      var pruned := PruneSettled(c.(jobs := c.jobs[number := settled]));
      conversations := conversations[id := pruned];
      settledJobs := settledJobs + [SettledJob(id, number, job.command, state, outcome.isError, outcome.content,
        outcome.exitCode)];
    }

    method CancelRunning(id: Id)
      modifies this`cancelled
      ensures Now() == Jobs.CancelRunning(old(Now()), id)
    {
      if id in conversations {
        var numbers := conversations[id].jobs.Keys;
        var c := conversations[id];
        ghost var done: set<nat> := {};
        while numbers != {}
          invariant numbers + done == c.jobs.Keys && conversations == old(conversations)
          invariant cancelled == old(cancelled) + set n | n in done && n in c.jobs &&
            c.jobs[n].state.Running? :: c.jobs[n].token
          decreases numbers
        {
          var n :| n in numbers;
          if c.jobs[n].state.Running? { cancelled := cancelled + {c.jobs[n].token}; }
          numbers, done := numbers - {n}, done + {n};
        }
        assert done == c.jobs.Keys;
      }
    }

    method CancelJob(id: Id, number: nat)
      modifies this`cancelled
      ensures Now() == Jobs.CancelJob(old(Now()), id, number)
    {
      if id in conversations && number in conversations[id].jobs && conversations[id].jobs[number].state.Running? {
        cancelled := cancelled + {conversations[id].jobs[number].token};
      }
    }

    method CloseConversation(id: Id)
      modifies this`conversations, this`cancelled
      ensures Now() == Close(old(Now()), id)
    {
      CancelRunning(id);
      conversations := conversations - {id};
    }

    /**
     Drops exactly the idle conversations none of whose jobs is running; the others, and with them every
     running job, stay as they are.
     */
    method EvictIdle(idle: set<Id>)
      modifies this`conversations
      ensures Now() == Jobs.EvictIdle(old(Now()), idle)
      ensures forall id :: id in conversations ==>
        id in old(conversations) && conversations[id] == old(conversations)[id]
      ensures forall id :: id in old(conversations) && id !in conversations ==>
        id in idle && NothingRuns(old(conversations)[id])
      ensures forall id :: id in conversations && id in idle ==> !NothingRuns(conversations[id])
    {
      var before := conversations;
      conversations := map[];
      var left := before.Keys;
      while left != {}
        invariant left <= before.Keys && conversations == Kept(before, before.Keys - left, idle)
        decreases left
      {
        var id :| id in left;
        var running := CollectNumbers(before[id], true);
        if |running| > 0 || id !in idle { conversations := conversations[id := before[id]]; }
        left := left - {id};
      }
      forall id | id in before
        ensures RunningCount(before[id]) == 0 <==> NothingRuns(before[id]) { NothingRunsIff(before[id]); }
    }
  }

}
