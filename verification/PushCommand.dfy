/** `pg-web push` as it runs: attempts at the transaction under the retry loop. Each attempt is one
    step of the pushers' state machine, from whatever state the others have left. */
module PushCommand {
  import opened Prelude
  import opened Push
  import opened PushTransaction
  import opened Retry
  import opened Pushers

  /** `s` is the state of the pushers that this database and this caller are in. */
  predicate IsTrying(s: State, p: nat, plan: Plan, dryRun: bool, attempt: nat) {
    p in s.pushers && s.pushers[p].Trying? && s.pushers[p].plan == plan && s.pushers[p].dryRun == dryRun
    && s.pushers[p].attempt == attempt
  }

  /** One attempt, which may fail at any statement, is one step of caller `p`. */
  method Attempt(db: Database, plan: Plan, dryRun: bool, failure: Option<Failure>, ghost p: nat, ghost attempt: nat,
                 ghost maxAttempts: nat, ghost s: State)
    returns (r: Result<Summary, PushError>, ghost s': State)
    requires s.tables == db.tables && IsTrying(s, p, plan, dryRun, attempt)
    modifies db
    ensures s'.tables == db.tables
    ensures if r.Ok? then AttemptSucceeds(s, s', p) else AttemptFails(s, s', p, maxAttempts, r.error)
  {
    r := PushAttempt(db, plan, dryRun, failure);
    ghost var q := s.pushers[p];
    if r.Ok? {
      ghost var done := s.pushers[p := Succeeded(plan, dryRun, q.attempt, q.sleeps)];
      s' := if dryRun then s.(pushers := done) else State(db.tables, done, Some(plan));
    } else {
      s' := s.(pushers := s.pushers[p := AfterFailure(q, maxAttempts, r.error)]);
    }
  }

  /** A run of the state machine, from some state on. */
  ghost predicate IsRun(states: seq<State>, maxAttempts: nat) {
    states != [] && forall i :: 0 <= i < |states| - 1 ==> Next(states[i], states[i + 1], maxAttempts)
  }

  lemma RunGoesOn(states: seq<State>, s: State, maxAttempts: nat)
    requires IsRun(states, maxAttempts) && Next(states[|states| - 1], s, maxAttempts)
    ensures IsRun(states + [s], maxAttempts)
  {
    var longer := states + [s];
    forall i | 0 <= i < |longer| - 1 ensures Next(longer[i], longer[i + 1], maxAttempts) {
      if i < |states| - 1 { assert longer[i] == states[i] && longer[i + 1] == states[i + 1]; }
    }
  }

  /** The retry loop over attempts that are not interrupted by other callers: its trace is a run,
      and what it returns is what the state machine says the caller got. */
  method PushWithRetry(db: Database, plan: Plan, dryRun: bool, failures: nat -> Option<Failure>, maxAttempts: nat,
                       ghost p: nat, ghost s: State)
    returns (r: Result<Summary, RetryError<PushError>>, ghost states: seq<State>)
    requires s.tables == db.tables && IsTrying(s, p, plan, dryRun, 1)
    modifies db
    ensures IsRun(states, maxAttempts) && states[0] == s && states[|states| - 1].tables == db.tables
    ensures p in states[|states| - 1].pushers
    ensures match r
            case Ok(_) => states[|states| - 1].pushers[p].Succeeded?
            case Err(e) => states[|states| - 1].pushers[p].GaveUp? && states[|states| - 1].pushers[p].e == e
  {
    states := [s];
    var attempt := 1;
    while true
      invariant 1 <= attempt && IsRun(states, maxAttempts) && states[0] == s
      invariant states[|states| - 1].tables == db.tables
      invariant IsTrying(states[|states| - 1], p, plan, dryRun, attempt)
      decreases maxAttempts - attempt
    {
      var result;
      ghost var after;
      result, after := Attempt(db, plan, dryRun, failures(attempt), p, attempt, maxAttempts, states[|states| - 1]);
      RunGoesOn(states, after, maxAttempts);
      states := states + [after];
      match result
      case Ok(summary) =>
        return Ok(summary), states;
      case Err(e) =>
        match Decide(e, IsRetryable(e), attempt, maxAttempts)
        case SleepThenRetry =>
          attempt := attempt + 1;
        case GiveUp(err) =>
          return Err(err), states;
    }
  }
}
