/** The worker's graceful shutdown: a task polls the SIGTERM flag, and once it sees the flag the
    server has a fixed budget to drain. Time advances in milliseconds and, since every task yields,
    never past a timer that is due. */
module Shutdown {
  import opened Prelude

  const POLL_MS := 150
  const DRAIN_MS := 8000

  /** When the drain budget starts: at SIGTERM as now, or at startup as it once did. */
  datatype Budget = FromSigterm | FromStartup

  /** Which arm of the final `select!` ended the worker. */
  datatype Arm = ServeArm | DrainArm

  datatype State = State(
    now: nat, nextTick: nat,
    sigterm: Option<nat>,     // when the flag was set
    observed: Option<nat>,    // when the polling task saw it
    serveReady: bool,         // the server's future has completed
    ended: Option<Arm>)

  predicate Init(s: State) {
    s == State(0, 0, None, None, false, None)
  }

  function Deadline(b: Budget, s: State): Option<nat> {
    match b
    case FromStartup => Some(DRAIN_MS)
    case FromSigterm => if s.observed.Some? then Some(s.observed.value + DRAIN_MS) else None
  }

  predicate Advance(b: Budget, s: State, s': State) {
    s.ended == None && !s.serveReady
    && s.now < s'.now && s' == s.(now := s'.now)
    && (s.observed == None ==> s'.now <= s.nextTick)
    && (Deadline(b, s).Some? ==> s'.now <= Deadline(b, s).value)
  }

  predicate Signal(s: State, s': State) {
    s.ended == None && s.sigterm == None && s' == s.(sigterm := Some(s.now))
  }

  /** One turn of the polling loop. */
  predicate Tick(s: State, s': State) {
    s.ended == None && s.observed == None && s.now == s.nextTick
    && s' == s.(nextTick := s.nextTick + POLL_MS, observed := if s.sigterm.Some? then Some(s.now) else None)
  }

  /** The last request in flight is done; or the server fails on its own. */
  predicate ServeCompletes(s: State, s': State, fails: bool) {
    s.ended == None && !s.serveReady && (s.observed.Some? || fails) && s' == s.(serveReady := true)
  }

  /** The biased select: the serve arm first. */
  predicate Select(b: Budget, s: State, s': State) {
    s.ended == None
    && if s.serveReady then s' == s.(ended := Some(ServeArm))
       else Deadline(b, s).Some? && s.now >= Deadline(b, s).value && s' == s.(ended := Some(DrainArm))
  }

  ghost predicate Next(b: Budget, s: State, s': State) {
    Advance(b, s, s') || Signal(s, s') || Tick(s, s') || (exists fails :: ServeCompletes(s, s', fails))
    || Select(b, s, s')
  }

  ghost predicate IsBehavior(b: Budget, states: seq<State>) {
    states != [] && Init(states[0]) && forall i :: 0 <= i < |states| - 1 ==> Next(b, states[i], states[i + 1])
  }

  predicate Inv(s: State) {
    (s.observed == None ==> s.now <= s.nextTick <= s.now + POLL_MS)
    && (s.sigterm.Some? ==> s.sigterm.value <= s.now)
    && (s.sigterm.Some? && s.observed == None ==> s.nextTick <= s.sigterm.value + POLL_MS)
    && (s.observed.Some? ==>
          s.sigterm.Some? && s.sigterm.value <= s.observed.value <= s.sigterm.value + POLL_MS
          && s.observed.value <= s.now <= s.observed.value + DRAIN_MS)
    && (s.ended == Some(DrainArm) ==> s.observed.Some? && s.now == s.observed.value + DRAIN_MS && !s.serveReady)
  }

  lemma {:induction false} InvHolds(states: seq<State>, i: nat)
    requires IsBehavior(FromSigterm, states) && i < |states|
    ensures Inv(states[i])
  {
    if i > 0 {
      InvHolds(states, i - 1);
      assert Next(FromSigterm, states[i - 1], states[i]);
    }
  }

  /** In every run: the drain arm ends the worker only with the flag observed, exactly when the
      budget is spent and the server is still busy; the flag is observed within one poll; and no
      worker outlives the budget after that. */
  lemma ShutdownIsBounded(states: seq<State>, i: nat)
    requires IsBehavior(FromSigterm, states) && i < |states|
    ensures var s := states[i];
            (s.ended == Some(DrainArm) ==> s.observed.Some? && s.now == s.observed.value + 8000 && !s.serveReady)
            && (s.sigterm.Some? && s.now > s.sigterm.value + 150 ==> s.observed.Some?)
            && (s.observed.Some? ==> s.sigterm.Some? && s.observed.value <= s.sigterm.value + 150
                                     && s.now <= s.observed.value + 8000)
  {
    InvHolds(states, i);
  }

  /** While the server neither fails nor is told to stop, the worker keeps serving. */
  lemma NoSigtermNoDrainEnd(states: seq<State>, i: nat)
    requires IsBehavior(FromSigterm, states) && i < |states| && states[i].sigterm == None
    ensures states[i].ended != Some(DrainArm)
  {
    InvHolds(states, i);
  }

  /** The bounds are not met by standing still: a worker that has not ended can always poll, end
      or let a millisecond pass. */
  lemma NeverStuck(states: seq<State>, i: nat) returns (s': State)
    requires IsBehavior(FromSigterm, states) && i < |states| && states[i].ended == None
    ensures Tick(states[i], s') || Select(FromSigterm, states[i], s') || Advance(FromSigterm, states[i], s')
  {
    InvHolds(states, i);
    var s := states[i];
    if s.serveReady {
      s' := s.(ended := Some(ServeArm));
    } else if s.observed == None && s.now == s.nextTick {
      s' := s.(nextTick := s.nextTick + POLL_MS, observed := if s.sigterm.Some? then Some(s.now) else None);
    } else if s.observed.Some? && s.now == s.observed.value + DRAIN_MS {
      s' := s.(ended := Some(DrainArm));
    } else {
      s' := s.(now := s.now + 1);
    }
  }

  /** What is still to happen once the flag is observed: the milliseconds left of the budget, the
      server's completion and the end. */
  function Remaining(s: State): int
    requires s.observed.Some?
  {
    if s.ended.Some? then 0
    else s.observed.value + DRAIN_MS - s.now + (if s.serveReady then 0 else 1) + 1
  }

  lemma StepsRunOut(s: State, s': State)
    requires Inv(s) && Inv(s') && s.observed.Some? && Next(FromSigterm, s, s')
    ensures s'.observed == s.observed && 0 <= Remaining(s') < Remaining(s) <= DRAIN_MS + 2
  {
  }

  lemma {:induction false} RunShortens(states: seq<State>, i: nat, j: nat)
    requires IsBehavior(FromSigterm, states) && i <= j < |states| && states[i].observed.Some?
    ensures states[j].observed == states[i].observed && 0 <= Remaining(states[j]) <= Remaining(states[i]) - (j - i)
    ensures Remaining(states[i]) <= DRAIN_MS + 2
    decreases j - i
  {
    InvHolds(states, i);
    if i < j {
      RunShortens(states, i, j - 1);
      StepShortens(states, j - 1);
    }
  }

  lemma StepShortens(states: seq<State>, k: nat)
    requires IsBehavior(FromSigterm, states) && k + 1 < |states| && states[k].observed.Some?
    ensures states[k + 1].observed == states[k].observed && 0 <= Remaining(states[k + 1]) < Remaining(states[k])
  {
    InvHolds(states, k);
    InvHolds(states, k + 1);
    assert Next(FromSigterm, states[k], states[k + 1]);
    StepsRunOut(states[k], states[k + 1]);
  }

  /** After the flag is observed every run ends: it has no more steps than there are milliseconds
      in the budget, and two; and a run that cannot be extended has ended, by an arm of the select
      and no later than the budget allows. */
  lemma EveryRunEnds(states: seq<State>, i: nat)
    requires IsBehavior(FromSigterm, states) && i < |states| && states[i].observed.Some?
    ensures |states| - 1 - i <= 8002
    ensures var last := states[|states| - 1];
            (!exists s' :: Next(FromSigterm, last, s')) ==>
              last.ended.Some? && last.now <= states[i].observed.value + 8000
  {
    var n := |states| - 1;
    RunShortens(states, i, n);
    InvHolds(states, n);
    if states[n].ended == None {
      var s' := NeverStuck(states, n);
      assert Next(FromSigterm, states[n], s');
    }
  }

  // ---- Once serving has drained ----

  /** What can still happen then: a signal, a poll that is due, and the end. */
  function Leftover(s: State): nat {
    if s.ended.Some? then 0
    else 1 + (if s.sigterm == None then 1 else 0) + (if s.observed == None && s.now == s.nextTick then 1 else 0)
  }

  /** No time passes, and the drain arm has lost. */
  predicate DrainedAt(s: State, now: nat) { s.serveReady && s.now == now && s.ended != Some(DrainArm) }

  lemma DrainedStep(b: Budget, s: State, s': State)
    requires DrainedAt(s, s.now) && Next(b, s, s')
    ensures DrainedAt(s', s.now) && Leftover(s') < Leftover(s)
  {
  }

  lemma {:induction false} DrainedRun(b: Budget, states: seq<State>, i: nat, j: nat)
    requires IsBehavior(b, states) && i <= j < |states| && DrainedAt(states[i], states[i].now)
    ensures DrainedAt(states[j], states[i].now) && Leftover(states[j]) <= Leftover(states[i]) - (j - i)
    decreases j - i
  {
    if i < j {
      DrainedRun(b, states, i, j - 1);
      assert Next(b, states[j - 1], states[j]);
      DrainedStep(b, states[j - 1], states[j]);
    }
  }

  /** In every run, with either budget: once a worker that has not ended has nothing left to serve,
      no more time passes, at most three more steps are taken, the drain arm never wins, and a run
      that cannot be extended has ended by the serve arm. */
  lemma DrainedWorkerEndsAtOnce(b: Budget, states: seq<State>, i: nat, j: nat)
    requires IsBehavior(b, states) && i <= j < |states| && states[i].serveReady && states[i].ended == None
    ensures states[j].now == states[i].now && states[j].ended != Some(DrainArm) && j - i <= 3
    ensures (!exists s' :: Next(b, states[j], s')) ==> states[j].ended == Some(ServeArm)
  {
    DrainedRun(b, states, i, j);
    var s := states[j];
    match s.ended
    case None => assert Next(b, s, s.(ended := Some(ServeArm)));
    case Some(arm) => assert arm == ServeArm;
  }

  // ---- The regression the present form fixes ----

  lemma {:induction false} IdleRun(k: nat) returns (states: seq<State>)
    requires POLL_MS * k <= DRAIN_MS
    ensures IsBehavior(FromStartup, states)
    ensures states[|states| - 1] == State(POLL_MS * k, POLL_MS * (k + 1), None, None, false, None)
  {
    if k == 0 {
      var s0 := State(0, 0, None, None, false, None);
      var s1 := s0.(nextTick := POLL_MS);
      states := [s0, s1];
      assert Tick(s0, s1);
    } else {
      var front := IdleRun(k - 1);
      var s := front[|front| - 1];
      var s1 := s.(now := POLL_MS * k);
      var s2 := s1.(nextTick := POLL_MS * (k + 1));
      assert Advance(FromStartup, s, s1);
      assert Tick(s1, s2);
      states := Extend(FromStartup, front, s1);
      states := Extend(FromStartup, states, s2);
    }
  }

  lemma Extend(b: Budget, front: seq<State>, s: State) returns (states: seq<State>)
    requires IsBehavior(b, front) && Next(b, front[|front| - 1], s)
    ensures IsBehavior(b, states) && states == front + [s]
  {
    states := front + [s];
    forall i | 0 <= i < |states| - 1 ensures Next(b, states[i], states[i + 1]) {
      if i < |front| - 1 { assert Next(b, front[i], front[i + 1]); }
    }
  }

  /** With the budget armed at startup a healthy, idle worker ended after eight seconds. */
  lemma StartupBudgetKillsIdleWorker() returns (states: seq<State>)
    ensures IsBehavior(FromStartup, states)
    ensures var s := states[|states| - 1]; s.sigterm == None && s.ended == Some(DrainArm) && s.now == 8000
  {
    states := IdleRun(53);
    var s := states[|states| - 1];
    var s1 := s.(now := DRAIN_MS);
    var s2 := s1.(ended := Some(DrainArm));
    assert Advance(FromStartup, s, s1);
    assert Select(FromStartup, s1, s2);
    states := Extend(FromStartup, states, s1);
    states := Extend(FromStartup, states, s2);
  }
}
