/** Whole runs of the job registry: bounds, exactly-once reports, and records that stay as they settled. */
module JobProofs {

  import opened Basics
  import opened Jobs

  // ---------------------------------------------------------------------------------------------
  // Runs
  // ---------------------------------------------------------------------------------------------

  /** A job number given out; the token of the k-th one is k. */
  datatype Issue = Issue(conversation: Id, number: nat)

  /** The registry, every number it ever gave out, and its reports with the tokens of their jobs. */
  datatype World = World(registry: Registry, issued: seq<Issue>, reports: seq<SettledJob>, reporters: seq<nat>)

  datatype Event =
    | Registered(id: Id, command: string)
    | Settled(id: Id, number: nat, outcome: Outcome)
    | RunningCancelled(id: Id)
    | AllCancelled
    | JobCancelled(id: Id, number: nat)
    | TokenCancelled(token: nat)
    | Closed(id: Id)
    | IdleEvicted(idle: set<Id>)

  function Step(w: World, e: Event): World {
    match e
    case Registered(id, command) =>
      var (r, number) := Register(w.registry, id, command, |w.issued|);
      w.(registry := r, issued := if number.Some? then w.issued + [Issue(id, number.value)] else w.issued)
    case Settled(id, number, outcome) =>
      var (r, report) := Settle(w.registry, id, number, outcome);
      if report.None? then w
      else w.(registry := r, reports := w.reports + [report.value],
              reporters := w.reporters + [w.registry.conversations[id].jobs[number].token])
    case RunningCancelled(id) => w.(registry := CancelRunning(w.registry, id))
    case AllCancelled => w.(registry := CancelAll(w.registry))
    case JobCancelled(id, number) => w.(registry := CancelJob(w.registry, id, number))
    case TokenCancelled(token) => w.(registry := w.registry.(cancelled := w.registry.cancelled + {token}))
    case Closed(id) => w.(registry := Close(w.registry, id))
    case IdleEvicted(idle) => w.(registry := EvictIdle(w.registry, idle))
  }

  function Run(w: World, events: seq<Event>): World {
    if events == [] then w else Step(Run(w, events[..|events| - 1]), events[|events| - 1])
  }

  const INITIAL := World(Registry(map[], {}), [], [], [])

  // ---------------------------------------------------------------------------------------------
  // Numbers
  // ---------------------------------------------------------------------------------------------

  lemma {:induction false} NumbersAre(jobs: map<nat, Job>, bound: nat, running: bool, n: nat)
    ensures n in Numbers(jobs, bound, running) <==> n < bound && n in jobs && jobs[n].state.Running? == running
  {
    if bound > 0 { NumbersAre(jobs, bound - 1, running, n); }
  }

  ghost predicate Ascends(s: seq<nat>, bound: nat) {
    && (forall i :: 0 <= i < |s| ==> s[i] < bound)
    && (forall i, j :: 0 <= i < j < |s| ==> s[i] < s[j])
  }

  lemma AscendsOneMore(s: seq<nat>, n: nat)
    requires Ascends(s, n)
    ensures Ascends(s, n + 1) && Ascends(s + [n], n + 1)
  {
  }

  lemma {:induction false} NumbersAscend(jobs: map<nat, Job>, bound: nat, running: bool)
    ensures Ascends(Numbers(jobs, bound, running), bound)
  {
    if bound > 0 {
      NumbersAscend(jobs, bound - 1, running);
      var t := Numbers(jobs, bound - 1, running);
      AscendsOneMore(t, bound - 1);
      assert t + [] == t;
    }
  }

  lemma {:induction false} NumbersAgree(a: map<nat, Job>, b: map<nat, Job>, bound: nat, running: bool)
    requires forall n: nat :: n < bound ==>
      ((n in a && a[n].state.Running? == running) <==> (n in b && b[n].state.Running? == running))
    ensures Numbers(a, bound, running) == Numbers(b, bound, running)
  {
    if bound > 0 { NumbersAgree(a, b, bound - 1, running); }
  }

  /** Fewer members, fewer numbers. */
  lemma {:induction false} NumbersShrink(a: map<nat, Job>, b: map<nat, Job>, bound: nat, running: bool)
    requires forall n: nat :: n < bound && n in b && b[n].state.Running? == running ==>
      n in a && a[n].state.Running? == running
    ensures |Numbers(b, bound, running)| <= |Numbers(a, bound, running)|
  {
    if bound > 0 { NumbersShrink(a, b, bound - 1, running); }
  }

  // ---------------------------------------------------------------------------------------------
  // Pruning
  // ---------------------------------------------------------------------------------------------

  ghost predicate NumbersBelow(c: Conversation) {
    c.nextNumber > 0 && forall n :: n in c.jobs ==> 0 < n < c.nextNumber
  }

  function Removed(s: seq<nat>, gone: seq<nat>): seq<nat> {
    if s == [] then [] else Removed(s[..|s| - 1], gone) + (if s[|s| - 1] in gone then [] else [s[|s| - 1]])
  }

  lemma RemovedOneMore(s: seq<nat>, n: nat, gone: seq<nat>)
    ensures Removed(s + [n], gone) == Removed(s, gone) + (if n in gone then [] else [n])
  {
    assert (s + [n])[..|s|] == s;
  }

  /** Dropping jobs drops their numbers. */
  lemma {:induction false} NumbersWithout(jobs: map<nat, Job>, bound: nat, gone: seq<nat>)
    ensures Numbers(Without(jobs, gone), bound, false) == Removed(Numbers(jobs, bound, false), gone)
    decreases bound
  {
    if bound > 0 {
      NumbersWithout(jobs, bound - 1, gone);
      NumbersOneMore(jobs, bound - 1, gone);
    }
  }

  lemma NumbersStep(jobs: map<nat, Job>, n: nat)
    ensures Numbers(jobs, n + 1, false) ==
      if n in jobs && !jobs[n].state.Running? then Numbers(jobs, n, false) + [n] else Numbers(jobs, n, false)
  {
    var t := Numbers(jobs, n, false);
    assert t + [] == t;
  }

  lemma NumbersOneMore(jobs: map<nat, Job>, n: nat, gone: seq<nat>)
    requires Numbers(Without(jobs, gone), n, false) == Removed(Numbers(jobs, n, false), gone)
    ensures Numbers(Without(jobs, gone), n + 1, false) == Removed(Numbers(jobs, n + 1, false), gone)
  {
    var kept := Without(jobs, gone);
    var t, u := Numbers(jobs, n, false), Numbers(kept, n, false);
    NumbersStep(jobs, n);
    NumbersStep(kept, n);
    if n in jobs && !jobs[n].state.Running? {
      RemovedOneMore(t, n, gone);
      assert u + [] == u;
    }
  }

  lemma {:induction false} RemovedAll(s: seq<nat>, gone: seq<nat>)
    requires forall n :: n in s ==> n in gone
    ensures Removed(s, gone) == []
  {
    if s != [] { RemovedAll(s[..|s| - 1], gone); }
  }

  /** Dropping the first `k` of an ascending list leaves the rest. */
  lemma {:induction false} RemovedPrefix(s: seq<nat>, k: nat, bound: nat)
    requires Ascends(s, bound) && k <= |s|
    ensures Removed(s, s[..k]) == s[k..]
  {
    if k == |s| {
      RemovedAll(s, s[..k]);
    } else {
      var init, last := s[..|s| - 1], s[|s| - 1];
      RemovedPrefix(init, k, bound);
      assert init[..k] == s[..k] && last !in s[..k];
      assert init[k..] + [last] == s[k..];
    }
  }

  /** Dropping a prefix of the settled numbers leaves the rest of them. */
  lemma NumbersWithoutPrefix(jobs: map<nat, Job>, bound: nat, k: nat)
    requires k <= |Numbers(jobs, bound, false)|
    ensures Numbers(Without(jobs, Numbers(jobs, bound, false)[..k]), bound, false) == Numbers(jobs, bound, false)[k..]
  {
    var s := Numbers(jobs, bound, false);
    NumbersAscend(jobs, bound, false);
    NumbersWithout(jobs, bound, s[..k]);
    RemovedPrefix(s, k, bound);
  }

  /**
   Pruning keeps every running job and at most a hundred settled ones: the highest-numbered, each as it
   was, and as many as there are up to the hundred.
   */
  lemma PruneKeepsTheNewest(c: Conversation)
    requires NumbersBelow(c)
    ensures var p := Pruned(c);
      var before, after := Numbers(c.jobs, c.nextNumber, false), Numbers(p.jobs, p.nextNumber, false);
      && p.nextNumber == c.nextNumber
      && (forall n :: n in p.jobs ==> n in c.jobs && p.jobs[n] == c.jobs[n])
      && (forall n :: n in c.jobs && c.jobs[n].state.Running? ==> n in p.jobs)
      && |after| == (if |before| <= SETTLED_RETENTION then |before| else SETTLED_RETENTION)
      && (forall kept, gone :: kept in after && gone in c.jobs && gone !in p.jobs ==> gone < kept)
  {
    var p := Pruned(c);
    var before := Numbers(c.jobs, c.nextNumber, false);
    var k := if |before| > SETTLED_RETENTION then |before| - SETTLED_RETENTION else 0;
    NumbersWithoutPrefix(c.jobs, c.nextNumber, k);
    NumbersAscend(c.jobs, c.nextNumber, false);
    forall n | n in c.jobs && c.jobs[n].state.Running? ensures n in p.jobs {
      NumbersAre(c.jobs, c.nextNumber, false, n);
      assert n !in before[..k];
    }
    assert Numbers(p.jobs, p.nextNumber, false) == before[k..];
    forall kept, gone | kept in before[k..] && gone in c.jobs && gone !in p.jobs ensures gone < kept {
      assert gone in before[..k];
      var i :| 0 <= i < k && before[i] == gone;
      var j :| k <= j < |before| && before[j] == kept;
    }
  }

  // ---------------------------------------------------------------------------------------------
  // The invariant
  // ---------------------------------------------------------------------------------------------

  /** At most 15 jobs run, at most 100 settled ones are kept, and numbers are below the next one. */
  ghost predicate Bounded(c: Conversation) {
    && NumbersBelow(c)
    && |Numbers(c.jobs, c.nextNumber, true)| <= MAX_RUNNING_JOBS
    && |Numbers(c.jobs, c.nextNumber, false)| <= SETTLED_RETENTION
  }

  ghost predicate AllBounded(r: Registry) {
    forall id :: id in r.conversations ==> Bounded(r.conversations[id])
  }

  /** Every job's token is where its number was issued. */
  ghost predicate TokensAreIssued(r: Registry, issued: seq<Issue>) {
    forall id, n :: id in r.conversations && n in r.conversations[id].jobs ==>
      TokenFits(r.conversations[id].jobs[n].token, id, n, issued)
  }

  predicate TokenFits(token: nat, id: Id, n: nat, issued: seq<Issue>) {
    token < |issued| && issued[token] == Issue(id, n)
  }

  /** No running job has been reported. */
  ghost predicate RunningAreUnreported(r: Registry, reporters: seq<nat>) {
    forall id, n :: IsRunning(r, id, n) ==> r.conversations[id].jobs[n].token !in reporters
  }

  ghost predicate ReportsFit(w: World) {
    && |w.reports| == |w.reporters|
    && forall k :: 0 <= k < |w.reports| ==>
      TokenFits(w.reporters[k], w.reports[k].conversation, w.reports[k].number, w.issued)
  }

  ghost predicate DistinctNats(s: seq<nat>) {
    forall i, j :: 0 <= i < j < |s| ==> s[i] != s[j]
  }

  /** Every conversation's numbers start at one. */
  ghost predicate IssuesFit(r: Registry, issued: seq<Issue>) {
    && (forall k :: 0 <= k < |issued| ==> Issue(issued[k].conversation, 1) in issued)
    && (forall id :: id in r.conversations ==> Issue(id, 1) in issued)
  }

  ghost predicate Inv(w: World) {
    && AllBounded(w.registry)
    && TokensAreIssued(w.registry, w.issued)
    && RunningAreUnreported(w.registry, w.reporters)
    && ReportsFit(w)
    && DistinctNats(w.reporters)
    && IssuesFit(w.registry, w.issued)
  }

  // ---------------------------------------------------------------------------------------------
  // Every call keeps it
  // ---------------------------------------------------------------------------------------------

  lemma RegisterIsBounded(c: Conversation, job: Job)
    requires Bounded(c) && RunningCount(c) < MAX_RUNNING_JOBS && job.state.Running?
    ensures Bounded(Conversation(c.nextNumber + 1, c.jobs[c.nextNumber := job]))
  {
    var jobs := c.jobs[c.nextNumber := job];
    NumbersAgree(c.jobs, jobs, c.nextNumber, true);
    NumbersAgree(c.jobs, jobs, c.nextNumber, false);
  }

  lemma NewConversationIsBounded()
    ensures Bounded(NEW_CONVERSATION)
  {
    assert Numbers(map[], 0, true) == [] && Numbers(map[], 0, false) == [];
  }

  lemma RegisterKeeps(w: World, id: Id, command: string)
    requires Inv(w)
    ensures Inv(Step(w, Registered(id, command)))
  {
    var c := ConversationOf(w.registry, id);
    assert Bounded(c) by { NewConversationIsBounded(); }
    if RunningCount(c) < MAX_RUNNING_JOBS {
      RegisterIsBounded(c, NewJob(command, |w.issued|));
      RegisterIssues(w, id, command);
    } else {
      RefusedRegisterChangesNothing(w, id, command);
    }
  }

  lemma RefusedRegisterChangesNothing(w: World, id: Id, command: string)
    requires RunningCount(ConversationOf(w.registry, id)) >= MAX_RUNNING_JOBS
    ensures Step(w, Registered(id, command)) == w
  {
    assert RunningCount(NEW_CONVERSATION) == 0 by { assert Numbers(map[], 0, true) == []; }
    var r := w.registry;
    assert id in r.conversations;
    assert r.conversations[id := r.conversations[id]] == r.conversations;
  }

  lemma RegisterUnreported(w: World, r': Registry, id: Id, number: nat)
    requires ReportsFit(w) && RunningAreUnreported(w.registry, w.reporters)
    requires forall i, n :: IsRunning(r', i, n) ==>
      || (i == id && n == number && r'.conversations[i].jobs[n].token == |w.issued|)
      || (IsRunning(w.registry, i, n) && r'.conversations[i].jobs[n] == w.registry.conversations[i].jobs[n])
    ensures RunningAreUnreported(r', w.reporters)
  {
    forall i, n | IsRunning(r', i, n) ensures r'.conversations[i].jobs[n].token !in w.reporters {
      if i == id && n == number && r'.conversations[i].jobs[n].token == |w.issued| {
        assert forall k :: 0 <= k < |w.reporters| ==>
          TokenFits(w.reporters[k], w.reports[k].conversation, w.reports[k].number, w.issued);
      }
    }
  }

  lemma ReportsStillFit(w: World, w': World)
    requires ReportsFit(w) && w'.reports == w.reports && w'.reporters == w.reporters && w.issued <= w'.issued
    ensures ReportsFit(w')
  {
    forall k | 0 <= k < |w.reports|
      ensures TokenFits(w.reporters[k], w.reports[k].conversation, w.reports[k].number, w'.issued) {
      assert TokenFits(w.reporters[k], w.reports[k].conversation, w.reports[k].number, w.issued);
    }
  }

  lemma RegisterIssues(w: World, id: Id, command: string)
    requires Inv(w)
    requires var c := ConversationOf(w.registry, id);
      RunningCount(c) < MAX_RUNNING_JOBS &&
        Bounded(Conversation(c.nextNumber + 1, c.jobs[c.nextNumber := NewJob(command, |w.issued|)]))
    ensures Inv(Step(w, Registered(id, command)))
  {
    var r, c, token := w.registry, ConversationOf(w.registry, id), |w.issued|;
    var issued := w.issued + [Issue(id, c.nextNumber)];
    var r' := With(r, id, Conversation(c.nextNumber + 1, c.jobs[c.nextNumber := NewJob(command, token)]));
    assert Step(w, Registered(id, command)) == w.(registry := r', issued := issued);
    RegisterTokens(r, r', w.issued, id, c.nextNumber);
    RegisterUnreported(w, r', id, c.nextNumber);
    ReportsStillFit(w, w.(registry := r', issued := issued));
    RegisterIssuesFit(r, r', w.issued, id, c.nextNumber);
  }

  lemma RegisterTokens(r: Registry, r': Registry, issued: seq<Issue>, id: Id, number: nat)
    requires TokensAreIssued(r, issued)
    requires forall i, n :: i in r'.conversations && n in r'.conversations[i].jobs ==>
      || (i == id && n == number && r'.conversations[i].jobs[n].token == |issued|)
      || (i in r.conversations && n in r.conversations[i].jobs &&
        r'.conversations[i].jobs[n] == r.conversations[i].jobs[n])
    ensures TokensAreIssued(r', issued + [Issue(id, number)])
  {
    var more := issued + [Issue(id, number)];
    forall i, n | i in r'.conversations && n in r'.conversations[i].jobs
      ensures TokenFits(r'.conversations[i].jobs[n].token, i, n, more)
    {
      if !(i == id && n == number && r'.conversations[i].jobs[n].token == |issued|) {
        assert TokenFits(r.conversations[i].jobs[n].token, i, n, issued);
      }
    }
  }

  lemma RegisterIssuesFit(r: Registry, r': Registry, issued: seq<Issue>, id: Id, number: nat)
    requires IssuesFit(r, issued) && (id !in r.conversations ==> number == 1)
    requires r'.conversations.Keys == r.conversations.Keys + {id}
    ensures IssuesFit(r', issued + [Issue(id, number)])
  {
    var more := issued + [Issue(id, number)];
    assert more[|issued|] == Issue(id, number);
    assert Issue(id, 1) in more;
    forall k | 0 <= k < |more| ensures Issue(more[k].conversation, 1) in more {
      if k < |issued| { assert more[k] == issued[k]; }
    }
  }

  /** What settling one job leaves of a conversation. */
  function AfterSettling(c: Conversation, number: nat, job: Job): Conversation {
    Pruned(c.(jobs := c.jobs[number := job]))
  }

  lemma SettlingChangesOneJob(c: Conversation, number: nat, job: Job)
    requires Bounded(c) && number in c.jobs && c.jobs[number].state.Running? && !job.state.Running?
    ensures var d := AfterSettling(c, number, job);
      && Bounded(d) && d.nextNumber == c.nextNumber
      && (forall n :: n in d.jobs ==> n in c.jobs && d.jobs[n] == (if n == number then job else c.jobs[n]))
      && (forall n :: n in c.jobs && n != number && c.jobs[n].state.Running? ==> n in d.jobs)
  {
    var s := c.(jobs := c.jobs[number := job]);
    PruneKeepsTheNewest(s);
    NumbersShrink(c.jobs, Pruned(s).jobs, c.nextNumber, true);
  }

  /** Two jobs at different places have different tokens. */
  lemma TokensDiffer(r: Registry, issued: seq<Issue>, id: Id, n: nat, id': Id, n': nat)
    requires TokensAreIssued(r, issued)
    requires id in r.conversations && n in r.conversations[id].jobs && id' in r.conversations &&
      n' in r.conversations[id'].jobs
    requires (id, n) != (id', n')
    ensures r.conversations[id].jobs[n].token != r.conversations[id'].jobs[n'].token
  {
    assert TokenFits(r.conversations[id].jobs[n].token, id, n, issued);
    assert TokenFits(r.conversations[id'].jobs[n'].token, id', n', issued);
  }

  lemma SettleRegistryKeeps(r: Registry, issued: seq<Issue>, reporters: seq<nat>, id: Id, number: nat, outcome: Outcome)
    requires AllBounded(r) && TokensAreIssued(r, issued) && RunningAreUnreported(r, reporters) &&
      IssuesFit(r, issued) && IsRunning(r, id, number)
    ensures var r' := Settle(r, id, number, outcome).0; var token := r.conversations[id].jobs[number].token;
      AllBounded(r') && TokensAreIssued(r', issued) && RunningAreUnreported(r', reporters + [token]) &&
        IssuesFit(r', issued)
  {
    var c := r.conversations[id];
    var token := c.jobs[number].token;
    var job := SettleJob(c.jobs[number], token in r.cancelled, outcome);
    SettlingChangesOneJob(c, number, job);
    var r' := With(r, id, AfterSettling(c, number, job));
    SettleTokens(r, r', issued);
    SettleUnreported(r, r', issued, reporters, id, number, token);
  }

  lemma SettleKeeps(w: World, id: Id, number: nat, outcome: Outcome)
    requires Inv(w)
    ensures Inv(Step(w, Settled(id, number, outcome)))
  {
    if IsRunning(w.registry, id, number) {
      var token := w.registry.conversations[id].jobs[number].token;
      SettleRegistryKeeps(w.registry, w.issued, w.reporters, id, number, outcome);
      assert TokenFits(token, id, number, w.issued);
      SettleReports(w, Step(w, Settled(id, number, outcome)), token);
    }
  }

  lemma SettleUnreported(r: Registry, r': Registry, issued: seq<Issue>, reporters: seq<nat>, id: Id, number: nat,
      token: nat)
    requires TokensAreIssued(r, issued) && RunningAreUnreported(r, reporters)
    requires IsRunning(r, id, number) && token == r.conversations[id].jobs[number].token && !IsRunning(r', id, number)
    requires forall i, n :: IsRunning(r', i, n) ==>
      IsRunning(r, i, n) && r'.conversations[i].jobs[n].token == r.conversations[i].jobs[n].token
    ensures RunningAreUnreported(r', reporters + [token])
  {
    forall i, n | IsRunning(r', i, n) ensures r'.conversations[i].jobs[n].token !in reporters + [token] {
      TokensDiffer(r, issued, i, n, id, number);
    }
  }

  lemma SettleReports(w: World, w': World, token: nat)
    requires ReportsFit(w) && DistinctNats(w.reporters) && token !in w.reporters
    requires w'.issued == w.issued && w'.reporters == w.reporters + [token]
    requires |w'.reports| == |w.reports| + 1 && w'.reports[..|w.reports|] == w.reports
    requires TokenFits(token, w'.reports[|w.reports|].conversation, w'.reports[|w.reports|].number, w.issued)
    ensures ReportsFit(w') && DistinctNats(w'.reporters)
  {
    forall k | 0 <= k < |w'.reports|
      ensures TokenFits(w'.reporters[k], w'.reports[k].conversation, w'.reports[k].number, w'.issued)
    {
      if k < |w.reports| { assert w'.reports[..|w.reports|][k] == w.reports[k]; }
    }
  }

  lemma SettleTokens(r: Registry, r': Registry, issued: seq<Issue>)
    requires TokensAreIssued(r, issued)
    requires forall i, n :: i in r'.conversations && n in r'.conversations[i].jobs ==>
      i in r.conversations && n in r.conversations[i].jobs &&
      r'.conversations[i].jobs[n].token == r.conversations[i].jobs[n].token
    ensures TokensAreIssued(r', issued)
  {
    forall i, n | i in r'.conversations && n in r'.conversations[i].jobs
      ensures TokenFits(r'.conversations[i].jobs[n].token, i, n, issued)
    {
      assert TokenFits(r.conversations[i].jobs[n].token, i, n, issued);
    }
  }

  /** Dropping conversations, or cancelling tokens, keeps the invariant. */
  lemma DroppingKeeps(w: World, r: Registry)
    requires Inv(w) && forall id :: id in r.conversations ==>
      id in w.registry.conversations && r.conversations[id] == w.registry.conversations[id]
    ensures Inv(w.(registry := r))
  {
    SettleTokens(w.registry, r, w.issued);
    forall id, n | IsRunning(r, id, n) ensures r.conversations[id].jobs[n].token !in w.reporters {
      assert IsRunning(w.registry, id, n);
    }
  }

  lemma StepKeeps(w: World, e: Event)
    requires Inv(w)
    ensures Inv(Step(w, e))
  {
    match e
    case Registered(id, command) => RegisterKeeps(w, id, command);
    case Settled(id, number, outcome) => SettleKeeps(w, id, number, outcome);
    case _ => DroppingKeeps(w, Step(w, e).registry);
  }

  lemma {:induction false} RunKeeps(events: seq<Event>)
    ensures Inv(Run(INITIAL, events))
  {
    if events != [] {
      RunKeeps(events[..|events| - 1]);
      StepKeeps(Run(INITIAL, events[..|events| - 1]), events[|events| - 1]);
    }
  }

  // ---------------------------------------------------------------------------------------------
  // The theorems
  // ---------------------------------------------------------------------------------------------

  /** In every reachable state: at most 15 running, at most 100 settled, all numbers below the next. */
  lemma ConversationsStayBounded(events: seq<Event>, id: Id)
    requires id in Run(INITIAL, events).registry.conversations
    ensures Bounded(Run(INITIAL, events).registry.conversations[id])
  {
    RunKeeps(events);
  }

  /** No job, told by its token, is ever reported twice. */
  lemma EachJobIsReportedOnce(events: seq<Event>)
    ensures var w := Run(INITIAL, events); |w.reports| == |w.reporters| && DistinctNats(w.reporters)
  {
    RunKeeps(events);
  }

  lemma SettleLeavesOthersRunning(r: Registry, id: Id, number: nat, other: nat, outcome: Outcome)
    requires AllBounded(r) && IsRunning(r, id, number) && other != number
    ensures var after := Settle(r, id, other, outcome).0;
      IsRunning(after, id, number) && after.conversations[id].jobs[number] == r.conversations[id].jobs[number]
  {
    if IsRunning(r, id, other) {
      var c := r.conversations[id];
      SettlingChangesOneJob(c, other, SettleJob(c.jobs[other], c.jobs[other].token in r.cancelled, outcome));
    }
  }

  lemma EvictionLeavesRunning(r: Registry, id: Id, number: nat, idle: set<Id>)
    requires AllBounded(r) && IsRunning(r, id, number)
    ensures var after := EvictIdle(r, idle); id in after.conversations && after.conversations[id] == r.conversations[id]
  {
    var c := r.conversations[id];
    NumbersAre(c.jobs, c.nextNumber, true, number);
  }

  /** A running job leaves only by settling or by its conversation's close. */
  lemma RunningLeavesOnly(w: World, e: Event, id: Id, number: nat)
    requires AllBounded(w.registry) && IsRunning(w.registry, id, number)
    ensures var after := Step(w, e).registry;
      || (e.Settled? && e.id == id && e.number == number)
      || (e.Closed? && e.id == id)
      || (IsRunning(after, id, number) &&
        after.conversations[id].jobs[number] == w.registry.conversations[id].jobs[number])
  {
    match e
    case Settled(i, n, outcome) =>
      if i == id && n != number { SettleLeavesOthersRunning(w.registry, id, number, n, outcome); }
    case IdleEvicted(idle) => EvictionLeavesRunning(w.registry, id, number, idle);
    case Registered(i, command) => assert Bounded(w.registry.conversations[id]);
    case _ =>
  }

  /** What has settled stays as it settled, for as long as it is kept. */
  ghost predicate Stays(r: Registry, job: Job) {
    forall id, n :: id in r.conversations && n in r.conversations[id].jobs ==>
      r.conversations[id].jobs[n].token == job.token ==> r.conversations[id].jobs[n] == job
  }

  lemma SettleStays(r: Registry, id: Id, number: nat, outcome: Outcome, job: Job)
    requires AllBounded(r) && Stays(r, job) && !job.state.Running? && IsRunning(r, id, number)
    ensures Stays(Settle(r, id, number, outcome).0, job)
  {
    var c := r.conversations[id];
    var settled := SettleJob(c.jobs[number], c.jobs[number].token in r.cancelled, outcome);
    SettlingChangesOneJob(c, number, settled);
    var r' := With(r, id, AfterSettling(c, number, settled));
    forall i, n | i in r'.conversations && n in r'.conversations[i].jobs &&
      r'.conversations[i].jobs[n].token == job.token
      ensures r'.conversations[i].jobs[n] == job
    {
      assert r.conversations[i].jobs[n].token == job.token;
    }
  }

  lemma StepStays(w: World, e: Event, job: Job)
    requires AllBounded(w.registry) && Stays(w.registry, job) && !job.state.Running? && job.token < |w.issued|
    ensures Stays(Step(w, e).registry, job)
  {
    if e.Settled? && IsRunning(w.registry, e.id, e.number) {
      SettleStays(w.registry, e.id, e.number, e.outcome, job);
    }
  }

  /** A terminal record never changes, however the run goes on. */
  lemma {:induction false} TerminalRecordsNeverChange(w: World, events: seq<Event>, id: Id, n: nat)
    requires Inv(w) && id in w.registry.conversations && n in w.registry.conversations[id].jobs
    requires !w.registry.conversations[id].jobs[n].state.Running?
    ensures Inv(Run(w, events)) && |Run(w, events).issued| >= |w.issued| &&
      Stays(Run(w, events).registry, w.registry.conversations[id].jobs[n])
  {
    var job := w.registry.conversations[id].jobs[n];
    assert TokenFits(job.token, id, n, w.issued);
    if events == [] {
      forall i, k | i in w.registry.conversations && k in w.registry.conversations[i].jobs &&
        w.registry.conversations[i].jobs[k].token == job.token
        ensures w.registry.conversations[i].jobs[k] == job
      {
        if (i, k) != (id, n) { TokensDiffer(w.registry, w.issued, i, k, id, n); }
      }
    } else {
      var before, e := Run(w, events[..|events| - 1]), events[|events| - 1];
      TerminalRecordsNeverChange(w, events[..|events| - 1], id, n);
      StepKeeps(before, e);
      StepStays(before, e, job);
    }
  }

  /** A settle keeps the hundred highest-numbered settled jobs of the conversation and every other running one. */
  lemma SettleKeepsTheNewest(r: Registry, id: Id, number: nat, outcome: Outcome)
    requires AllBounded(r) && IsRunning(r, id, number)
    ensures var c := r.conversations[id]; var d := Settle(r, id, number, outcome).0.conversations[id];
      && |Numbers(d.jobs, d.nextNumber, false)| <= SETTLED_RETENTION
      && (forall n :: n in c.jobs && c.jobs[n].state.Running? && n != number ==> n in d.jobs && d.jobs[n] == c.jobs[n])
      && (forall kept, gone :: kept in d.jobs && !d.jobs[kept].state.Running? && gone in c.jobs && gone !in d.jobs ==>
        gone < kept)
  {
    var c := r.conversations[id];
    var job := SettleJob(c.jobs[number], c.jobs[number].token in r.cancelled, outcome);
    SettlingChangesOneJob(c, number, job);
    SettlingDropsTheOldest(c, number, job);
    assert Settle(r, id, number, outcome).0.conversations[id] == AfterSettling(c, number, job);
  }

  lemma SettlingDropsTheOldest(c: Conversation, number: nat, job: Job)
    requires Bounded(c) && number in c.jobs
    ensures var d := AfterSettling(c, number, job);
      forall kept, gone :: kept in d.jobs && !d.jobs[kept].state.Running? && gone in c.jobs && gone !in d.jobs ==>
        gone < kept
  {
    var s := c.(jobs := c.jobs[number := job]);
    var d := Pruned(s);
    PruneKeepsTheNewest(s);
    forall kept, gone | kept in d.jobs && !d.jobs[kept].state.Running? && gone in c.jobs && gone !in d.jobs
      ensures gone < kept {
      NumbersAre(d.jobs, d.nextNumber, false, kept);
    }
  }

  // ---------------------------------------------------------------------------------------------
  // Job numbers
  // ---------------------------------------------------------------------------------------------

  ghost predicate DistinctIssues(issued: seq<Issue>) {
    forall i, j :: 0 <= i < j < |issued| ==> issued[i] != issued[j]
  }

  /** The step starts a conversation again whose numbers were already given out. */
  ghost predicate Reuses(w: World, e: Event) {
    e.Registered? && e.id !in w.registry.conversations && Issue(e.id, 1) in w.issued
  }

  ghost predicate NeverReuses(events: seq<Event>) {
    if events == [] then true
    else NeverReuses(events[..|events| - 1]) && !Reuses(Run(INITIAL, events[..|events| - 1]), events[|events| - 1])
  }

  /** Numbers given out by a live conversation are below its next one. */
  ghost predicate IssuedBelow(r: Registry, issued: seq<Issue>) {
    forall k :: 0 <= k < |issued| && issued[k].conversation in r.conversations ==>
      issued[k].number < r.conversations[issued[k].conversation].nextNumber
  }

  lemma RegisterIsFresh(w: World, id: Id, command: string)
    requires IssuesFit(w.registry, w.issued) && DistinctIssues(w.issued) && IssuedBelow(w.registry, w.issued) &&
      !Reuses(w, Registered(id, command))
    ensures var w' := Step(w, Registered(id, command)); DistinctIssues(w'.issued) && IssuedBelow(w'.registry, w'.issued)
  {
    var c := ConversationOf(w.registry, id);
    forall k | 0 <= k < |w.issued| && w.issued[k].conversation == id ensures w.issued[k].number < c.nextNumber {
      assert Issue(id, 1) in w.issued;
    }
    var w' := Step(w, Registered(id, command));
    if RunningCount(c) < MAX_RUNNING_JOBS {
      FreshNumber(w.registry, w'.registry, w.issued, id, c.nextNumber);
    } else {
      assert forall k :: 0 <= k < |w.issued| && w.issued[k].conversation == id ==> id in w.registry.conversations;
    }
  }

  lemma FreshNumber(r: Registry, r': Registry, issued: seq<Issue>, id: Id, number: nat)
    requires DistinctIssues(issued) && IssuedBelow(r, issued)
    requires forall k :: 0 <= k < |issued| && issued[k].conversation == id ==> issued[k].number < number
    requires id in r'.conversations && r'.conversations[id].nextNumber == number + 1
    requires forall i :: i in r'.conversations && i != id ==>
      i in r.conversations && r'.conversations[i] == r.conversations[i]
    ensures DistinctIssues(issued + [Issue(id, number)]) && IssuedBelow(r', issued + [Issue(id, number)])
  {
    var more := issued + [Issue(id, number)];
    assert forall k :: 0 <= k < |issued| ==> more[k] == issued[k];
  }

  lemma OtherStepsAreFresh(w: World, e: Event)
    requires Inv(w) && !e.Registered? && DistinctIssues(w.issued) && IssuedBelow(w.registry, w.issued)
    ensures DistinctIssues(Step(w, e).issued) && IssuedBelow(Step(w, e).registry, Step(w, e).issued)
  {
    var w' := Step(w, e);
    assert w'.issued == w.issued;
    forall id | id in w'.registry.conversations
      ensures id in w.registry.conversations &&
        w'.registry.conversations[id].nextNumber == w.registry.conversations[id].nextNumber {
    }
  }

  lemma {:induction false} FreshWithoutReuse(events: seq<Event>)
    requires NeverReuses(events)
    ensures var w := Run(INITIAL, events); DistinctIssues(w.issued) && IssuedBelow(w.registry, w.issued)
  {
    if events != [] {
      var init, e := events[..|events| - 1], events[|events| - 1];
      FreshWithoutReuse(init);
      RunKeeps(init);
      if e.Registered? {
        RegisterIsFresh(Run(INITIAL, init), e.id, e.command);
      } else {
        OtherStepsAreFresh(Run(INITIAL, init), e);
      }
    }
  }

  lemma ReuseRepeats(w: World, id: Id, command: string)
    requires Reuses(w, Registered(id, command))
    ensures !DistinctIssues(Step(w, Registered(id, command)).issued)
  {
    assert Numbers(map[], 0, true) == [];
    assert RunningCount(NEW_CONVERSATION) == 0;
    var issued := Step(w, Registered(id, command)).issued;
    var k :| 0 <= k < |w.issued| && w.issued[k] == Issue(id, 1);
    assert issued[k] == issued[|w.issued|];
  }

  lemma RepeatsStay(w: World, e: Event)
    requires !DistinctIssues(w.issued)
    ensures !DistinctIssues(Step(w, e).issued)
  {
    var i, j :| 0 <= i < j < |w.issued| && w.issued[i] == w.issued[j];
    var issued := Step(w, e).issued;
    assert issued[i] == w.issued[i] && issued[j] == w.issued[j];
  }

  lemma {:induction false} ReuseIsRepetition(events: seq<Event>)
    requires !NeverReuses(events)
    ensures !DistinctIssues(Run(INITIAL, events).issued)
  {
    var init, e := events[..|events| - 1], events[|events| - 1];
    if NeverReuses(init) {
      ReuseRepeats(Run(INITIAL, init), e.id, e.command);
    } else {
      ReuseIsRepetition(init);
      RepeatsStay(Run(INITIAL, init), e);
    }
  }

  /** Job ids name one job each, over the whole run, exactly when no closed or evicted conversation starts again. */
  lemma JobIdsAreUniqueIff(events: seq<Event>)
    ensures DistinctIssues(Run(INITIAL, events).issued) <==> NeverReuses(events)
  {
    if NeverReuses(events) { FreshWithoutReuse(events); } else { ReuseIsRepetition(events); }
  }

  /** Then no id is reported twice either. */
  lemma EachIdIsReportedOnce(events: seq<Event>, i: nat, j: nat)
    requires NeverReuses(events) && i < j < |Run(INITIAL, events).reports|
    ensures var w := Run(INITIAL, events);
      (w.reports[i].conversation, w.reports[i].number) != (w.reports[j].conversation, w.reports[j].number)
  {
    RunKeeps(events);
    FreshWithoutReuse(events);
    var w := Run(INITIAL, events);
    assert TokenFits(w.reporters[i], w.reports[i].conversation, w.reports[i].number, w.issued);
    assert TokenFits(w.reporters[j], w.reports[j].conversation, w.reports[j].number, w.issued);
  }

  /** A conversation that is not there yet starts with one running job, number one. */
  lemma StartsAtOne(w: World, id: Id, command: string)
    requires id !in w.registry.conversations
    ensures var c := Conversation(2, map[1 := NewJob(command, |w.issued|)]);
      Step(w, Registered(id, command)) == w.(registry := With(w.registry, id, c), issued := w.issued + [Issue(id, 1)])
  {
    assert Numbers(map[], 0, true) == [];
    assert RunningCount(NEW_CONVERSATION) == 0;
  }

  lemma SettlesAndReports(w: World, id: Id, number: nat, outcome: Outcome)
    requires IsRunning(w.registry, id, number)
    ensures var w' := Step(w, Settled(id, number, outcome)); var job := w.registry.conversations[id].jobs[number];
      && w'.issued == w.issued && w'.reporters == w.reporters + [job.token]
      && |w'.reports| == |w.reports| + 1
      && w'.reports[|w.reports|].command == job.command && w'.reports[|w.reports|].output == outcome.content
  {
  }

  lemma RunOfFour(w: World, a: Event, b: Event, c: Event, d: Event)
    ensures Run(w, [a, b, c, d]) == Step(Step(Step(Step(w, a), b), c), d)
  {
    var events := [a, b, c, d];
    assert events[..3] == [a, b, c] && [a, b, c][..2] == [a, b] && [a, b][..1] == [a] && [a][..0] == [];
    assert Run(w, [a]) == Step(w, a);
    assert Run(w, [a, b]) == Step(Run(w, [a]), b);
    assert Run(w, [a, b, c]) == Step(Run(w, [a, b]), c);
  }

  /** A conversation closed while its first job runs, then used again: that job's outcome settles the new job. */
  lemma LateOutcomeSettlesAnotherJob(id: Id, first: string, second: string, outcome: Outcome)
    ensures var events := [Registered(id, first), Closed(id), Registered(id, second), Settled(id, 1, outcome)];
      var w := Run(INITIAL, events);
      && w.issued == [Issue(id, 1), Issue(id, 1)]
      && |w.reports| == 1 && w.reports[0].command == second && w.reports[0].output == outcome.content &&
      w.reporters == [1]
  {
    StartsAtOne(INITIAL, id, first);
    var w1 := Step(INITIAL, Registered(id, first));
    var w2 := Step(w1, Closed(id));
    assert id !in w2.registry.conversations && w2.issued == [Issue(id, 1)];
    StartsAtOne(w2, id, second);
    var w3 := Step(w2, Registered(id, second));
    SettlesAndReports(w3, id, 1, outcome);
    RunOfFour(INITIAL, Registered(id, first), Closed(id), Registered(id, second), Settled(id, 1, outcome));
  }

}
