/** The worker's snapshot of routes, templates and environment, and the protocol that keeps it
    coherent: pushes commit and queue a reload notification in one transaction; the single thread
    either serves a request, reading the database in several statements if nothing is cached, or
    takes one notification and drops the snapshot. Other backends commit at any moment, also
    between the reads of one build. */
module SnapshotCache {
  import opened Prelude
  import opened Router
  import opened RoutingProperties
  import opened Text

  const RELOAD := "pgweb_reload"

  datatype Env = Development | Production

  /** What a push can change of what a snapshot holds. */
  datatype Tables = Tables(routes: seq<RouteRow>, templates: map<string, string>, env: Env)

  /** A part is read as of some committed version; a failing read leaves it empty. */
  datatype Read = At(version: nat) | Unreadable

  datatype Snapshot = Snapshot(routes: Read, templates: Read, env: Read)

  /** Between requests, or in a request that began at version `start` with some parts read. */
  datatype Thread = Idle | Serving(start: nat, seen: seq<Read>)

  /** `history` holds every committed version, the last one current; `queue` the notifications in
      flight to the worker by channel; `pumped` counts the reloads it has taken. */
  datatype State = State(history: seq<Tables>, queue: seq<string>, cache: Option<Snapshot>, thread: Thread, pumped: nat)

  function Current(s: State): int { |s.history| - 1 }

  predicate Init(s: State) {
    |s.history| == 1 && s.queue == [] && s.cache == None && s.thread == Idle && s.pumped == 0
  }

  /** A push commits: its changes and its notification together. */
  predicate Commit(s: State, s': State, tables: Tables) {
    s' == s.(history := s.history + [tables], queue := s.queue + [RELOAD])
  }

  /** A notification on another channel, such as the browser's live reload. */
  predicate OtherNotify(s: State, s': State, channel: string) {
    channel != RELOAD && s' == s.(queue := s.queue + [channel])
  }

  predicate Begin(s: State, s': State) {
    s.thread == Idle && Current(s) >= 0 && s' == s.(thread := Serving(Current(s), []))
  }

  function AfterRead(s: State, r: Read): State
    requires s.thread.Serving?
  {
    s.(thread := Serving(s.thread.start, s.thread.seen + [r]))
  }

  /** One statement of a build: it sees a version no older than the request's start. */
  predicate ReadPart(s: State, s': State, r: Read) {
    s.thread.Serving? && s.cache == None && |s.thread.seen| < 3
    && (r.At? ==> s.thread.start <= r.version <= Current(s))
    && s' == AfterRead(s, r)
  }

  function Built(seen: seq<Read>): Snapshot
    requires |seen| == 3
  {
    Snapshot(seen[0], seen[1], seen[2])
  }

  predicate Install(s: State, s': State) {
    s.thread.Serving? && s.cache == None && |s.thread.seen| == 3
    && s' == s.(cache := Some(Built(s.thread.seen)))
  }

  predicate End(s: State, s': State) {
    s.thread.Serving? && s.cache.Some? && s' == s.(thread := Idle)
  }

  function AfterNotification(s: State): State
    requires s.queue != []
  {
    if s.queue[0] == RELOAD then s.(queue := s.queue[1..], cache := None, pumped := s.pumped + 1)
    else s.(queue := s.queue[1..])
  }

  /** The listen task runs only when no request does. */
  predicate Pump(s: State, s': State) {
    s.thread == Idle && s.queue != [] && s' == AfterNotification(s)
  }

  ghost predicate Next(s: State, s': State) {
    (exists tables :: Commit(s, s', tables)) || (exists channel :: OtherNotify(s, s', channel))
    || Begin(s, s') || (exists r :: ReadPart(s, s', r)) || Install(s, s') || End(s, s') || Pump(s, s')
  }

  ghost predicate IsBehavior(states: seq<State>) {
    states != [] && Init(states[0]) && forall i :: 0 <= i < |states| - 1 ==> Next(states[i], states[i + 1])
  }

  // ---- The invariant ----

  function PendingReloads(queue: seq<string>): nat {
    if queue == [] then 0 else (if queue[0] == RELOAD then 1 else 0) + PendingReloads(queue[1..])
  }

  predicate NotOlder(r: Read, low: int, high: int) {
    r.At? ==> low <= r.version <= high
  }

  /** A reload is pending for each version the worker has not yet been told of, and nothing it
      holds or is reading is older than the last version it was told of. */
  predicate Inv(s: State) {
    s.history != [] && s.pumped <= Current(s)
    && PendingReloads(s.queue) == Current(s) - s.pumped
    && (s.cache.Some? ==>
          NotOlder(s.cache.value.routes, s.pumped, Current(s))
          && NotOlder(s.cache.value.templates, s.pumped, Current(s))
          && NotOlder(s.cache.value.env, s.pumped, Current(s)))
    && (s.thread.Serving? ==>
          s.pumped <= s.thread.start <= Current(s)
          && forall i :: 0 <= i < |s.thread.seen| ==> NotOlder(s.thread.seen[i], s.pumped, Current(s)))
  }

  lemma {:induction false} PendingAppend(queue: seq<string>, channel: string)
    ensures PendingReloads(queue + [channel]) == PendingReloads(queue) + (if channel == RELOAD then 1 else 0)
  {
    if queue == [] {
      assert [] + [channel] == [channel] && [channel][1..] == [];
    } else {
      assert (queue + [channel])[1..] == queue[1..] + [channel];
      PendingAppend(queue[1..], channel);
    }
  }

  lemma {:induction false} PendingIffQueued(queue: seq<string>)
    ensures PendingReloads(queue) > 0 <==> RELOAD in queue
  {
    if queue != [] {
      PendingIffQueued(queue[1..]);
      assert queue == [queue[0]] + queue[1..];
    }
  }

  lemma NextKeepsInv(s: State, s': State)
    requires Inv(s) && Next(s, s')
    ensures Inv(s')
  {
    if tables :| Commit(s, s', tables) {
      PendingAppend(s.queue, RELOAD);
    } else if channel :| OtherNotify(s, s', channel) {
      PendingAppend(s.queue, channel);
    } else if Pump(s, s') {
    } else {
      RequestKeepsInv(s, s');
    }
  }

  lemma RequestKeepsInv(s: State, s': State)
    requires Inv(s) && (Begin(s, s') || (exists r :: ReadPart(s, s', r)) || Install(s, s') || End(s, s'))
    ensures Inv(s')
  {
  }

  lemma {:induction false} InvHolds(states: seq<State>, i: nat)
    requires IsBehavior(states) && i < |states|
    ensures Inv(states[i])
  {
    if i > 0 {
      InvHolds(states, i - 1);
      assert Next(states[i - 1], states[i]);
      NextKeepsInv(states[i - 1], states[i]);
    }
  }

  // ---- Coherence ----

  predicate IsStale(r: Read, s: State) { r.At? && r.version < Current(s) }

  predicate HoldsStale(s: State) {
    (s.cache.Some?
     && (IsStale(s.cache.value.routes, s) || IsStale(s.cache.value.templates, s) || IsStale(s.cache.value.env, s)))
    || (s.thread.Serving? && exists i :: 0 <= i < |s.thread.seen| && IsStale(s.thread.seen[i], s))
  }

  /** In every run, a snapshot with any part older than the database, cached or still being read,
      has a reload notification on its way. */
  lemma StaleImpliesReloadPending(states: seq<State>, i: nat)
    requires IsBehavior(states) && i < |states|
    ensures HoldsStale(states[i]) ==> "pgweb_reload" in states[i].queue
  {
    InvHolds(states, i);
    PendingIffQueued(states[i].queue);
  }

  /** Notifications can be taken one by one until none is left. */
  function Drained(s: State): State
    decreases |s.queue|
  {
    if s.queue == [] then s else Drained(AfterNotification(s))
  }

  /** Draining the queue leaves no stale snapshot: it is dropped if any reload was pending, and
      kept, current, otherwise. */
  lemma {:induction false} DrainingMakesCurrent(s: State)
    requires Inv(s) && s.thread == Idle
    ensures var d := Drained(s);
            Inv(d) && d.thread == Idle && d.queue == [] && d.history == s.history && !HoldsStale(d)
            && d.cache == (if RELOAD in s.queue then None else s.cache)
    decreases |s.queue|
  {
    if s.queue != [] {
      var s' := AfterNotification(s);
      assert Pump(s, s');
      NextKeepsInv(s, s');
      DrainingMakesCurrent(s');
      assert s.queue == [s.queue[0]] + s.queue[1..];
    }
  }

  /** With no reload pending, every part of the cached snapshot that could be read is the current
      version's: readable parts are all of one version. */
  lemma SettledSnapshotIsCurrent(states: seq<State>, i: nat)
    requires IsBehavior(states) && i < |states|
    requires "pgweb_reload" !in states[i].queue && states[i].cache.Some?
    ensures states[i].history != [] && IsOfVersion(states[i].cache.value, Current(states[i]))
  {
    InvHolds(states, i);
    StaleImpliesReloadPending(states, i);
  }

  /** Every part that could be read is this version's. */
  predicate IsOfVersion(snap: Snapshot, version: int) {
    (snap.routes.At? ==> snap.routes.version == version)
    && (snap.templates.At? ==> snap.templates.version == version)
    && (snap.env.At? ==> snap.env.version == version)
  }

  /** The table was built from the cached snapshot, with no reload pending. */
  ghost predicate IsSettledTable(table: RouteTable, s: State)
    requires s.history != []
  {
    RELOAD !in s.queue && s.cache.Some?
    && match s.cache.value.routes
       case At(v) => v < |s.history| ==> IsTableOf(table, s.history[v].routes)
       case Unreadable => IsTableOf(table, [])
  }

  function LastRoutes(s: State): seq<RouteRow>
    requires s.history != []
  {
    s.history[|s.history| - 1].routes
  }

  lemma SettledTableIsLastPush(states: seq<State>, i: nat, table: RouteTable, m: string, path: string)
    requires IsBehavior(states) && i < |states|
    requires states[i].history != [] && IsSettledTable(table, states[i])
    ensures TableAnswer(table, m, path)
            == if states[i].cache.value.routes.At? then Lookup(LastRoutes(states[i]), m, path) else None
  {
    SettledSnapshotIsCurrent(states, i);
    match states[i].cache.value.routes
    case At(_) => TableLookup(table, LastRoutes(states[i]), m, path);
    case Unreadable =>
      TableLookup(table, [], m, path);
      var row := LookupIsMostSpecific([], m, path);
  }

  /** Once no reload is pending, requests are routed by the last push: if the routes could be read,
      the table built from the snapshot answers with the most specific row that push stored, and if
      they could not, with nothing. */
  lemma SettledRoutingFollowsLastPush(states: seq<State>, i: nat, table: RouteTable, m: string, path: string)
    returns (row: int)
    requires IsBehavior(states) && i < |states|
    requires states[i].history != [] && IsSettledTable(table, states[i])
    ensures var rows, hit := LastRoutes(states[i]), TableAnswer(table, m, path);
            if states[i].cache.value.routes.Unreadable? then hit == None
            else
              (hit.Some? <==> exists j :: 0 <= j < |rows| && Matching(rows[j], m, Segments(path)))
              && (hit.Some? ==>
                    IsMostSpecific(rows, m, Segments(path), row) && hit == Some(Answer(rows[row], Segments(path))))
  {
    SettledTableIsLastPush(states, i, table, m, path);
    row := LookupIsMostSpecific(LastRoutes(states[i]), m, path);
  }

  // ---- Builds no commit interrupts ----

  /** From `b` to `n` one request is served: it begins at `b` and has not ended. */
  predicate IsOneRequest(states: seq<State>, b: nat, n: nat)
    requires n < |states|
  {
    b < n && Begin(states[b], states[b + 1]) && forall i :: b < i <= n ==> states[i].thread.Serving?
  }

  predicate ReadsSince(s: State) {
    s.thread.Serving? ==> forall i :: 0 <= i < |s.thread.seen| ==>
      NotOlder(s.thread.seen[i], s.thread.start, Current(s))
  }

  lemma {:induction false} ReadsAreSinceStart(states: seq<State>, i: nat)
    requires IsBehavior(states) && i < |states|
    ensures ReadsSince(states[i])
  {
    if i > 0 {
      ReadsAreSinceStart(states, i - 1);
      assert Next(states[i - 1], states[i]);
    }
  }

  lemma HistoryGrows(s: State, s': State)
    requires Next(s, s')
    ensures |s.history| <= |s'.history|
    ensures s.thread.Serving? && s'.thread.Serving? ==> s'.thread.start == s.thread.start
  {
  }

  /** During a request the start stays what it was when the request began. */
  lemma {:induction false} StartIsKept(states: seq<State>, b: nat, n: nat)
    requires IsBehavior(states) && n < |states| && IsOneRequest(states, b, n)
    ensures states[n].thread.start == Current(states[b]) && |states[b].history| <= |states[n].history|
  {
    assert Next(states[n - 1], states[n]);
    HistoryGrows(states[n - 1], states[n]);
    if n > b + 1 { StartIsKept(states, b, n - 1); }
  }

  /** A snapshot can only be torn by a commit during its build: installed without one since the
      request began, every part that could be read is of one version, the current one. */
  lemma UninterruptedBuildIsNotTorn(states: seq<State>, b: nat, n: nat)
    requires IsBehavior(states) && n + 1 < |states| && IsOneRequest(states, b, n)
    requires Install(states[n], states[n + 1]) && |states[n].history| == |states[b].history|
    ensures IsOfVersion(states[n + 1].cache.value, Current(states[n + 1]))
  {
    StartIsKept(states, b, n);
    ReadsAreSinceStart(states, n);
  }

  // ---- What is cached stays cached ----

  lemma {:induction false} NoReloadWithoutCommit(states: seq<State>, i: nat, j: nat)
    requires IsBehavior(states) && i <= j < |states|
    requires RELOAD !in states[i].queue && |states[j].history| == |states[i].history|
    ensures RELOAD !in states[j].queue && (states[i].cache.Some? ==> states[j].cache == states[i].cache)
    decreases j - i
  {
    if i < j {
      assert Next(states[j - 1], states[j]);
      HistoryNeverShrinks(states, i, j - 1);
      HistoryGrows(states[j - 1], states[j]);
      NoReloadWithoutCommit(states, i, j - 1);
      QuietStep(states[j - 1], states[j]);
    }
  }

  lemma {:induction false} HistoryNeverShrinks(states: seq<State>, i: nat, j: nat)
    requires IsBehavior(states) && i <= j < |states|
    ensures |states[i].history| <= |states[j].history|
    decreases j - i
  {
    if i < j {
      assert Next(states[j - 1], states[j]);
      HistoryGrows(states[j - 1], states[j]);
      HistoryNeverShrinks(states, i, j - 1);
    }
  }

  lemma QuietStep(s: State, s': State)
    requires Next(s, s') && RELOAD !in s.queue && |s'.history| == |s.history|
    ensures RELOAD !in s'.queue && (s.cache.Some? ==> s'.cache == s.cache)
  {
    if s.queue != [] { assert s.queue == [s.queue[0]] + s.queue[1..]; }
  }

  /** A snapshot with nothing pending stays cached until the next commit, empty parts included: a
      failed read is not repaired by time or by requests. */
  lemma CacheStaysUntilCommit(states: seq<State>, i: nat, j: nat)
    requires IsBehavior(states) && i <= j < |states|
    requires states[i].cache.Some? && RELOAD !in states[i].queue && |states[j].history| == |states[i].history|
    ensures states[j].cache == states[i].cache
  {
    NoReloadWithoutCommit(states, i, j);
  }

  // ---- What the protocol does not give ----

  /** A snapshot can be torn: parts of one build may come from different pushes. The reload that
      replaces it is then pending. */
  lemma TornSnapshotIsReachable(a: Tables, b: Tables) returns (states: seq<State>)
    ensures IsBehavior(states)
    ensures var s := states[|states| - 1];
            s.cache == Some(Snapshot(At(0), At(1), At(1))) && s.history == [a, b] && s.queue == [RELOAD]
  {
    var s0 := State([a], [], None, Idle, 0);
    var s1 := s0.(thread := Serving(0, []));
    var s2 := AfterRead(s1, At(0));
    var s3 := s2.(history := [a] + [b], queue := [] + [RELOAD]);
    var s4 := AfterRead(s3, At(1));
    var s5 := AfterRead(s4, At(1));
    var s6 := s5.(cache := Some(Built(s5.thread.seen)));
    states := [s0, s1, s2, s3, s4, s5, s6];
    assert Begin(s0, s1);
    assert ReadPart(s1, s2, At(0));
    assert Commit(s2, s3, b);
    assert ReadPart(s3, s4, At(1));
    assert ReadPart(s4, s5, At(1));
    assert Install(s5, s6);
  }

  /** A part whose read failed is cached empty, with nothing pending to replace it. */
  lemma FailedReadSticks(a: Tables) returns (states: seq<State>)
    ensures IsBehavior(states)
    ensures var s := states[|states| - 1];
            s.cache == Some(Snapshot(Unreadable, At(0), At(0))) && s.queue == [] && s.thread == Idle
  {
    var s0 := State([a], [], None, Idle, 0);
    var s1 := s0.(thread := Serving(0, []));
    var s2 := AfterRead(s1, Unreadable);
    var s3 := AfterRead(s2, At(0));
    var s4 := AfterRead(s3, At(0));
    var s5 := s4.(cache := Some(Built(s4.thread.seen)));
    var s6 := s5.(thread := Idle);
    states := [s0, s1, s2, s3, s4, s5, s6];
    assert Begin(s0, s1);
    assert ReadPart(s1, s2, Unreadable);
    assert ReadPart(s2, s3, At(0));
    assert ReadPart(s3, s4, At(0));
    assert Install(s4, s5);
    assert End(s5, s6);
  }

  // ---- The worker's own code ----

  /** The process-wide snapshot and the listen task's stream. */
  class Worker {
    var snapshot: Option<Snapshot>
    var notifications: seq<string>

    /** The worker's part of a protocol state. */
    predicate Shows(s: State)
      reads this
    {
      snapshot == s.cache && notifications == s.queue
    }

    /** The cached snapshot, or a new one built from three reads, which is then cached. */
    method GetSnapshot(readRoutes: Read, readTemplates: Read, readEnv: Read, ghost s: State)
      returns (arc: Snapshot, ghost s': State)
      requires Shows(s) && s.thread.Serving?
      requires s.cache == None ==> s.thread.seen == [readRoutes, readTemplates, readEnv]
      modifies this
      ensures Shows(s') && snapshot == Some(arc)
      ensures if s.cache.Some? then s' == s else Install(s, s')
    {
      s' := s;
      if snapshot.Some? {
        return snapshot.value, s';
      }
      arc := Snapshot(readRoutes, readTemplates, readEnv);
      snapshot := Some(arc);
      s' := s.(cache := Some(arc));
    }

    method Invalidate()
      modifies `snapshot
      ensures snapshot == None
    {
      snapshot := None;
    }

    /** One turn of the pump. */
    method ForwardOne(ghost s: State) returns (ghost s': State)
      requires Shows(s) && s.thread == Idle && notifications != []
      modifies this
      ensures Pump(s, s') && Shows(s')
    {
      var channel := notifications[0];
      notifications := notifications[1..];
      if channel == RELOAD {
        Invalidate();
      }
      s' := AfterNotification(s);
    }
  }
}
