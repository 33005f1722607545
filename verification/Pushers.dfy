/** Several pushers on one database: each attempt is one atomic commit or abort, conflicts and
    other errors strike at will, and every caller follows the retry loop. */
module Pushers {
  import opened Prelude
  import opened Push
  import PushProperties
  import HandlerCalls
  import opened Retry

  /** A caller in its loop, or what the loop returned. */
  datatype Pusher =
    | Trying(plan: Plan, dryRun: bool, attempt: nat, sleeps: nat)
    | Succeeded(plan: Plan, dryRun: bool, attempt: nat, sleeps: nat)
    | GaveUp(e: RetryError<PushError>, attempt: nat, sleeps: nat)

  /** `committed` records the plan of the last commit. */
  datatype State = State(tables: Tables, pushers: map<nat, Pusher>, committed: Option<Plan>)

  predicate IsRetryable(e: PushError) { e == Db(Conflict) }

  predicate Init(s: State) { s.pushers == map[] && s.committed == None }

  predicate Start(s: State, s': State, p: nat, plan: Plan, dryRun: bool) {
    p !in s.pushers && s' == s.(pushers := s.pushers[p := Trying(plan, dryRun, 1, 0)])
  }

  /** An attempt goes through: the tables as they are now pass validation and become what the push
      makes of them, unless it is a dry run. */
  predicate AttemptSucceeds(s: State, s': State, p: nat) {
    p in s.pushers && s.pushers[p].Trying?
    && var q := s.pushers[p];
    Validates(s.tables, q.plan)
    && var done := s.pushers[p := Succeeded(q.plan, q.dryRun, q.attempt, q.sleeps)];
    s' == if q.dryRun then s.(pushers := done) else State(Pushed(s.tables, q.plan), done, Some(q.plan))
  }

  /** An attempt fails, by a database error or by validation: nothing changes but the caller. */
  predicate AttemptFails(s: State, s': State, p: nat, maxAttempts: nat, e: PushError) {
    p in s.pushers && s.pushers[p].Trying?
    && s' == s.(pushers := s.pushers[p := AfterFailure(s.pushers[p], maxAttempts, e)])
  }

  function AfterFailure(q: Pusher, maxAttempts: nat, e: PushError): Pusher
    requires q.Trying?
  {
    match Decide(e, IsRetryable(e), q.attempt, maxAttempts)
    case SleepThenRetry => Trying(q.plan, q.dryRun, q.attempt + 1, q.sleeps + 1)
    case GiveUp(err) => GaveUp(err, q.attempt, q.sleeps)
  }

  ghost predicate Next(s: State, s': State, maxAttempts: nat) {
    (exists p, plan, dryRun :: Start(s, s', p, plan, dryRun))
    || (exists p :: AttemptSucceeds(s, s', p))
    || (exists p, e :: AttemptFails(s, s', p, maxAttempts, e))
  }

  ghost predicate IsBehavior(states: seq<State>, maxAttempts: nat) {
    states != [] && Init(states[0]) && forall i :: 0 <= i < |states| - 1 ==> Next(states[i], states[i + 1], maxAttempts)
  }

  /** The pushes that returned Ok and were not dry runs. */
  function Landed(s: State): set<nat> {
    set p | p in s.pushers && s.pushers[p].Succeeded? && !s.pushers[p].dryRun
  }

  /** Attempts within budget, one sleep before each but the first, and the exhaustion wrapper on
      exactly the retryable last errors. */
  predicate FollowsLoop(q: Pusher, maxAttempts: nat) {
    1 <= q.attempt && (q.attempt <= maxAttempts || q.attempt == 1) && q.sleeps == q.attempt - 1
    && (q.GaveUp? ==>
          (q.e.Exhausted? <==> q.e.error == Db(Conflict))
          && (q.e.Exhausted? ==> q.attempt >= maxAttempts && q.e.maxAttempts == maxAttempts))
  }

  ghost predicate Inv(s: State, s0: State, maxAttempts: nat) {
    |s.tables.deployments| == |s0.tables.deployments| + |Landed(s)|
    && (forall p :: p in s.pushers ==> FollowsLoop(s.pushers[p], maxAttempts))
    && (s.committed.None? ==> s.tables == s0.tables)
    && (s.committed.Some? ==> exists t :: Validates(t, s.committed.value) && s.tables == Pushed(t, s.committed.value))
  }

  lemma LandedAfter(s: State, s': State, p: nat)
    requires p in s'.pushers && (p in s.pushers ==> s.pushers[p].Trying?)
    requires s'.pushers == s.pushers[p := s'.pushers[p]]
    ensures |Landed(s')| == |Landed(s)| + (if s'.pushers[p].Succeeded? && !s'.pushers[p].dryRun then 1 else 0)
  {
    if s'.pushers[p].Succeeded? && !s'.pushers[p].dryRun {
      assert Landed(s') == Landed(s) + {p};
    } else {
      assert Landed(s') == Landed(s);
    }
  }

  lemma StartKeepsInv(s0: State, s: State, s': State, maxAttempts: nat, p: nat, plan: Plan, dryRun: bool)
    requires Inv(s, s0, maxAttempts) && Start(s, s', p, plan, dryRun)
    ensures Inv(s', s0, maxAttempts)
  {
    LandedAfter(s, s', p);
  }

  lemma SuccessKeepsInv(s0: State, s: State, s': State, maxAttempts: nat, p: nat)
    requires Inv(s, s0, maxAttempts) && AttemptSucceeds(s, s', p)
    ensures Inv(s', s0, maxAttempts)
  {
    LandedAfter(s, s', p);
    var q := s.pushers[p];
    assert FollowsLoop(q, maxAttempts);
    if !q.dryRun { CommitAddsOneRow(s.tables, q.plan); }
  }

  lemma CommitAddsOneRow(t: Tables, plan: Plan)
    ensures |Pushed(t, plan).deployments| == |t.deployments| + 1
  {
  }

  lemma FailureKeepsInv(s0: State, s: State, s': State, maxAttempts: nat, p: nat, e: PushError)
    requires Inv(s, s0, maxAttempts) && AttemptFails(s, s', p, maxAttempts, e)
    ensures Inv(s', s0, maxAttempts)
  {
    var q := s.pushers[p];
    assert FollowsLoop(q, maxAttempts);
    FailureFollowsLoop(q, maxAttempts, e);
    LandedAfter(s, s', p);
  }

  lemma FailureFollowsLoop(q: Pusher, maxAttempts: nat, e: PushError)
    requires q.Trying? && FollowsLoop(q, maxAttempts)
    ensures FollowsLoop(AfterFailure(q, maxAttempts, e), maxAttempts)
  {
  }

  lemma NextKeepsInv(s0: State, s: State, s': State, maxAttempts: nat)
    requires Inv(s, s0, maxAttempts) && Next(s, s', maxAttempts)
    ensures Inv(s', s0, maxAttempts)
  {
    if p, plan, dryRun :| Start(s, s', p, plan, dryRun) {
      StartKeepsInv(s0, s, s', maxAttempts, p, plan, dryRun);
    } else if p :| AttemptSucceeds(s, s', p) {
      SuccessKeepsInv(s0, s, s', maxAttempts, p);
    } else {
      var p, e :| AttemptFails(s, s', p, maxAttempts, e);
      FailureKeepsInv(s0, s, s', maxAttempts, p, e);
    }
  }

  lemma {:induction false} InvHolds(states: seq<State>, maxAttempts: nat, i: nat)
    requires IsBehavior(states, maxAttempts) && i < |states|
    ensures Inv(states[i], states[0], maxAttempts)
  {
    if i > 0 {
      InvHolds(states, maxAttempts, i - 1);
      assert Next(states[i - 1], states[i], maxAttempts);
      NextKeepsInv(states[0], states[i - 1], states[i], maxAttempts);
    } else {
      assert Landed(states[0]) == {};
    }
  }

  /** For every interleaving: the ledger has grown by one row per push that landed, and every caller
      is within its budget, slept between attempts only, and wraps exactly exhausted retries. */
  lemma LedgerCountsLandedPushes(states: seq<State>, maxAttempts: nat, i: nat)
    requires IsBehavior(states, maxAttempts) && i < |states|
    ensures |states[i].tables.deployments| == |states[0].tables.deployments| + |Landed(states[i])|
    ensures forall p :: p in states[i].pushers ==> FollowsLoop(states[i].pushers[p], maxAttempts)
  {
    InvHolds(states, maxAttempts, i);
  }

  /** And at every moment the database holds all that the routes of the last committed push need,
      so that the server serves exactly those whose handler names it accepts. */
  lemma LastCommitIsServed(states: seq<State>, maxAttempts: nat, i: nat, k: RouteKey)
    requires IsBehavior(states, maxAttempts) && i < |states| && states[i].committed.Some?
    requires PushProperties.Claims(states[i].committed.value.app.entries, k)
    ensures var tables := states[i].tables;
            k in tables.routes && PushProperties.IsBacked(tables, tables.routes[k])
            && (PushProperties.IsServable(tables, tables.routes[k])
                <==> HandlerCalls.IsSafeIdent(tables.routes[k].handlerName))
  {
    InvHolds(states, maxAttempts, i);
    var plan := states[i].committed.value;
    var t :| Validates(t, plan) && states[i].tables == Pushed(t, plan);
    PushProperties.PushedRoutesAreServableIff(t, plan, k);
  }
}
