/** `pg-web migrate apply`: discovering the files, one run of the loop, and any interleaving of
    runs that overlap, crash and start again, each deciding from the ledger it read at its start. */
module Migrate {
  import opened Prelude
  import opened Text
  import opened Sorting

  /** A migration file: its name is its identity. */
  datatype Migration = Migration(name: string, sql: string)

  datatype Summary = Summary(applied: seq<string>, skipped: seq<string>)

  // ---- Discovery ----

  predicate NameLe(a: Migration, b: Migration) { LexLe(a.name, b.name) }

  lemma NameLeIsTotalPreorder()
    ensures IsTotalPreorder(NameLe)
  {
    forall a: Migration, b: Migration ensures NameLe(a, b) || NameLe(b, a) { LexLeTotal(a.name, b.name); }
    forall a: Migration, b: Migration, c: Migration | NameLe(a, b) && NameLe(b, c) ensures NameLe(a, c) {
      LexLeTransitive(a.name, b.name, c.name);
    }
  }

  /** A file as the directory listing yields it. */
  datatype DirEntry = DirEntry(isFile: bool, name: string, content: string)

  /** `Path::extension`: what follows the last dot, unless the name has no other. */
  function Extension(name: string): Option<string> {
    match RSplitOnce(name, '.')
    case None => None
    case Some((stem, ext)) => if stem == "" then None else Some(ext)
  }

  function AsMigration(e: DirEntry): Option<Migration> {
    if e.isFile && Extension(e.name) == Some("sql") then Some(Migration(e.name, e.content)) else None
  }

  /** What follows the last dot is "sql", and something comes before it. */
  lemma SqlExtension(name: string)
    ensures Extension(name) == Some("sql") <==> exists stem :: stem != "" && name == stem + ".sql"
  {
    if Extension(name) == Some("sql") {
      var (stem, ext) := RSplitOnce(name, '.').value;
      assert name == stem + ".sql";
    }
    if stem :| stem != "" && name == stem + ".sql" {
      assert name == stem + ['.'] + "sql";
      RSplitOnceIs(stem, "sql", '.');
    }
  }

  lemma {:induction false} KeptMigrations(entries: seq<DirEntry>, m: Migration)
    ensures m in FilterMap(AsMigration, entries) <==> exists e :: e in entries && AsMigration(e) == Some(m)
  {
    if entries != [] {
      KeptMigrations(entries[1..], m);
      assert entries == [entries[0]] + entries[1..];
    }
  }

  /** The migrations of a directory are its files with that extension, by name and content, in the
      order of their names. */
  lemma DiscoveredMigrations(entries: seq<DirEntry>)
    ensures var out := StableSort(FilterMap(AsMigration, entries), NameLe);
            (forall m: Migration :: m in out <==>
               exists e :: e in entries && e.isFile && e.name == m.name && e.content == m.sql
                           && exists stem :: stem != "" && e.name == stem + ".sql")
            && forall i, j :: 0 <= i < j < |out| ==> LexLe(out[i].name, out[j].name)
  {
    var kept := FilterMap(AsMigration, entries);
    NameLeIsTotalPreorder();
    SortSorts(kept, NameLe);
    SortKeepsElements(kept, NameLe);
    forall m: Migration
      ensures m in StableSort(kept, NameLe) <==>
                exists e :: e in entries && e.isFile && e.name == m.name && e.content == m.sql
                            && exists stem :: stem != "" && e.name == stem + ".sql"
    {
      KeptMigrations(entries, m);
      SameMembers(StableSort(kept, NameLe), kept, m);
      SqlExtension(m.name);
    }
  }

  lemma SameMembers<T>(a: seq<T>, b: seq<T>, x: T)
    requires multiset(a) == multiset(b)
    ensures x in a <==> x in b
  {
    assert x in a <==> x in multiset(a);
    assert x in b <==> x in multiset(b);
  }

  method Discover(entries: seq<DirEntry>) returns (out: seq<Migration>)
    ensures out == StableSort(FilterMap(AsMigration, entries), NameLe)
  {
    out := [];
    for i := 0 to |entries|
      invariant out == FilterMap(AsMigration, entries[..i])
    {
      var e := entries[i];
      assert entries[..i + 1] == entries[..i] + [e];
      FilterMapAppend(AsMigration, entries[..i], e);
      if !e.isFile {
        continue;
      }
      if Extension(e.name) != Some("sql") {
        continue;
      }
      out := out + [Migration(e.name, e.content)];
    }
    assert entries[..|entries|] == entries;
    out := StableSort(out, NameLe);
  }

  predicate DistinctNames(files: seq<Migration>) {
    forall i, j :: 0 <= i < j < |files| ==> files[i].name != files[j].name
  }

  /** The files are applied in one order, whatever order the directory lists them in. */
  lemma DiscoveryIgnoresListingOrder(files: seq<Migration>, files': seq<Migration>)
    requires DistinctNames(files) && multiset(files) == multiset(files')
    ensures StableSort(files, NameLe) == StableSort(files', NameLe)
  {
    NameLeIsTotalPreorder();
    var a, b := StableSort(files, NameLe), StableSort(files', NameLe);
    SortSorts(files, NameLe);
    SortSorts(files', NameLe);
    SortKeepsElements(files, NameLe);
    SortKeepsElements(files', NameLe);
    forall x, y | x in a && y in a && NameLe(x, y) && NameLe(y, x) ensures x == y {
      LexLeAntisymmetric(x.name, y.name);
      MemberOfPermutation(a, files, x);
      MemberOfPermutation(a, files, y);
    }
    SortedIsUnique(a, b, NameLe);
  }

  // ---- One run ----

  /** The names still to apply, in order. */
  function Pending(files: seq<Migration>, applied: set<string>): seq<string> {
    if files == [] then []
    else
      var k := |files| - 1;
      Pending(files[..k], applied) + (if files[k].name in applied then [] else [files[k].name])
  }

  function Skipped(files: seq<Migration>, applied: set<string>): seq<string> {
    if files == [] then []
    else
      var k := |files| - 1;
      Skipped(files[..k], applied) + (if files[k].name in applied then [files[k].name] else [])
  }

  function SetOf(names: seq<string>): set<string> { set n | n in names }

  /** The ledger table, and the files whose SQL has taken effect, in order. */
  class Database {
    var ledger: set<string>
    var executed: seq<string>

    constructor ()
      ensures ledger == {} && executed == []
    {
      ledger, executed := {}, [];
    }

    /** One file's transaction: its SQL and its ledger row land together or not at all. */
    method ApplyFile(name: string, sqlFails: bool) returns (ok: bool)
      modifies this
      ensures ok == (!sqlFails && name !in old(ledger))
      ensures ok ==> ledger == old(ledger) + {name} && executed == old(executed) + [name]
      ensures !ok ==> ledger == old(ledger) && executed == old(executed)
    {
      if sqlFails || name in ledger {
        return false;
      }
      executed := executed + [name];
      ledger := ledger + {name};
      return true;
    }
  }

  /** A run with the database to itself: applies exactly what was pending, in order, up to the
      first file whose SQL fails; the error names that file. */
  method Apply(db: Database, files: seq<Migration>, sqlFails: string -> bool) returns (r: Result<Summary, string>)
    requires DistinctNames(files)
    modifies db
    ensures var pending := Pending(files, old(db.ledger));
            match r
            case Ok(s) => s == Summary(pending, Skipped(files, old(db.ledger)))
                          && (forall i :: 0 <= i < |files| ==> files[i].name in db.ledger)
                          && db.executed == old(db.executed) + pending
                          && db.ledger == old(db.ledger) + SetOf(pending)
            case Err(name) => exists k :: 0 <= k < |pending| && pending[k] == name && sqlFails(name)
                                          && db.executed == old(db.executed) + pending[..k]
                                          && db.ledger == old(db.ledger) + SetOf(pending[..k])
  {
    var appliedSet := db.ledger;
    var summary := Summary([], []);
    for i := 0 to |files|
      invariant summary == Summary(Pending(files[..i], appliedSet), Skipped(files[..i], appliedSet))
      invariant db.executed == old(db.executed) + summary.applied
      invariant db.ledger == appliedSet + SetOf(summary.applied)
    {
      var name := files[i].name;
      assert files[..i + 1][..i] == files[..i];
      if name in appliedSet {
        summary := summary.(skipped := summary.skipped + [name]);
        continue;
      }
      NotYetApplied(files, appliedSet, i);
      var ok := db.ApplyFile(name, sqlFails(name));
      if !ok {
        return Err(name);
      }
      summary := summary.(applied := summary.applied + [name]);
    }
    assert files[..|files|] == files;
    forall i | 0 <= i < |files| ensures files[i].name in db.ledger {
      if files[i].name !in appliedSet { PendingPosition(files, appliedSet, i); }
    }
    return Ok(summary);
  }

  lemma NotYetApplied(files: seq<Migration>, applied: set<string>, i: nat)
    requires DistinctNames(files) && i < |files| && files[i].name !in applied
    ensures var p := |Pending(files[..i], applied)|;
            p < |Pending(files, applied)| && Pending(files, applied)[p] == files[i].name
            && Pending(files[..i], applied) == Pending(files, applied)[..p]
    ensures files[i].name !in SetOf(Pending(files[..i], applied))
  {
    var before := Pending(files[..i], applied);
    PendingPosition(files, applied, i);
    PendingIsPrefix(files, applied, i);
    forall q | 0 <= q < |before| ensures before[q] != files[i].name {
      var l := PendingOrigin(files[..i], applied, q);
    }
  }

  /** What is pending among the first `i` files is the front of what is pending. */
  lemma {:induction false} PendingIsPrefix(files: seq<Migration>, applied: set<string>, i: nat)
    requires i <= |files|
    ensures Pending(files[..i], applied) <= Pending(files, applied)
  {
    if i == |files| {
      assert files[..i] == files;
    } else {
      var k := |files| - 1;
      PendingIsPrefix(files[..k], applied, i);
      assert files[..k][..i] == files[..i];
    }
  }

  /** Where a pending file stands among the pending names. */
  lemma PendingPosition(files: seq<Migration>, applied: set<string>, i: nat)
    requires i < |files| && files[i].name !in applied
    ensures var p := |Pending(files[..i], applied)|;
            p < |Pending(files, applied)| && Pending(files, applied)[p] == files[i].name
  {
    var front := files[..i + 1];
    assert front[..i] == files[..i];
    PendingIsPrefix(files, applied, i + 1);
    assert Pending(front, applied) == Pending(files[..i], applied) + [files[i].name];
  }

  lemma {:induction false} PendingOrigin(files: seq<Migration>, applied: set<string>, p: nat) returns (i: nat)
    requires p < |Pending(files, applied)|
    ensures i < |files| && files[i].name == Pending(files, applied)[p] && files[i].name !in applied
  {
    var k := |files| - 1;
    if p < |Pending(files[..k], applied)| { i := PendingOrigin(files[..k], applied, p); } else { i := k; }
  }

  lemma {:induction false} PendingIsDistinct(files: seq<Migration>, applied: set<string>)
    requires DistinctNames(files)
    ensures forall i, j :: 0 <= i < j < |Pending(files, applied)| ==>
              Pending(files, applied)[i] != Pending(files, applied)[j]
  {
    if files != [] {
      var k := |files| - 1;
      var before := Pending(files[..k], applied);
      PendingIsDistinct(files[..k], applied);
      forall i | 0 <= i < |before| ensures before[i] != files[k].name {
        var l := PendingOrigin(files[..k], applied, i);
      }
    }
  }

  // ---- Overlapping and interrupted runs ----

  /** A run between two of its transactions: the applied-set it loaded and the next file. */
  datatype Run = Idle | Running(applied: set<string>, next: nat) | Finished | Failed

  datatype State = State(ledger: set<string>, executed: seq<string>, runs: map<nat, Run>)

  predicate Init(s: State, ledger: set<string>) {
    s.ledger == ledger && s.executed == [] && forall r :: r in s.runs ==> s.runs[r] == Idle
  }

  predicate Load(s: State, s': State, r: nat) {
    r in s.runs && s.runs[r] == Idle
    && s' == s.(runs := s.runs[r := Running(s.ledger, 0)])
  }

  predicate Skip(files: seq<Migration>, s: State, s': State, r: nat) {
    r in s.runs && s.runs[r].Running?
    && var run := s.runs[r];
    run.next < |files| && files[run.next].name in run.applied
    && s' == s.(runs := s.runs[r := run.(next := run.next + 1)])
  }

  /** The transaction commits: only possible when the primary key is free. */
  predicate Commit(files: seq<Migration>, s: State, s': State, r: nat) {
    r in s.runs && s.runs[r].Running?
    && var run := s.runs[r];
    run.next < |files|
    && var name := files[run.next].name;
    name !in run.applied && name !in s.ledger
    && s' == State(s.ledger + {name}, s.executed + [name], s.runs[r := run.(next := run.next + 1)])
  }

  /** A failing statement, a primary-key clash, a lost connection or a kill, at any point. */
  predicate Abort(s: State, s': State, r: nat) {
    r in s.runs && (s.runs[r].Running? || s.runs[r].Idle?)
    && s' == s.(runs := s.runs[r := Failed])
  }

  predicate Finish(files: seq<Migration>, s: State, s': State, r: nat) {
    r in s.runs && s.runs[r].Running? && s.runs[r].next == |files|
    && s' == s.(runs := s.runs[r := Finished])
  }

  /** Somebody runs the command (again). */
  predicate Start(s: State, s': State, r: nat) {
    (r !in s.runs || s.runs[r].Finished? || s.runs[r].Failed?)
    && s' == s.(runs := s.runs[r := Idle])
  }

  ghost predicate Next(files: seq<Migration>, s: State, s': State) {
    exists r :: Load(s, s', r) || Skip(files, s, s', r) || Commit(files, s, s', r) || Abort(s, s', r)
                || Finish(files, s, s', r) || Start(s, s', r)
  }

  ghost predicate IsBehavior(files: seq<Migration>, ledger: set<string>, states: seq<State>) {
    states != [] && Init(states[0], ledger)
    && forall i :: 0 <= i < |states| - 1 ==> Next(files, states[i], states[i + 1])
  }

  /** The files committed so far are the front of what was pending at first, and no run has moved
      past a file that is not in the ledger. */
  ghost predicate Inv(files: seq<Migration>, ledger: set<string>, s: State) {
    s.executed <= Pending(files, ledger)
    && s.ledger == ledger + SetOf(s.executed)
    && (forall r :: r in s.runs && s.runs[r].Running? ==> RunInv(files, s, s.runs[r]))
    && (forall r :: r in s.runs && s.runs[r].Finished? ==> forall i :: 0 <= i < |files| ==> files[i].name in s.ledger)
  }

  predicate RunInv(files: seq<Migration>, s: State, run: Run)
    requires run.Running?
  {
    run.applied <= s.ledger && run.next <= |files|
    && forall i :: 0 <= i < run.next ==> files[i].name in s.ledger
  }

  /** If the first `i` files are all recorded, what was pending of them has been executed. */
  lemma RecordedMeansExecuted(files: seq<Migration>, ledger: set<string>, s: State, i: nat)
    requires DistinctNames(files) && Inv(files, ledger, s) && i <= |files|
    ensures (forall j :: 0 <= j < i ==> files[j].name in s.ledger) ==> |Pending(files[..i], ledger)| <= |s.executed|
  {
    var pending, before, k := Pending(files, ledger), Pending(files[..i], ledger), |s.executed|;
    PendingIsPrefix(files, ledger, i);
    PendingIsDistinct(files, ledger);
    if k < |before| {
      var j := PendingOrigin(files[..i], ledger, k);
      assert files[j].name == pending[k];
      assert forall l :: 0 <= l < k ==> s.executed[l] == pending[l] != pending[k];
      assert files[j].name !in s.ledger;
    }
  }

  /** A commit can only be of the very next pending file. */
  lemma CommitIsNextPending(files: seq<Migration>, ledger: set<string>, s: State, i: nat)
    requires DistinctNames(files) && Inv(files, ledger, s)
    requires i < |files| && files[i].name !in s.ledger && forall j :: 0 <= j < i ==> files[j].name in s.ledger
    ensures |s.executed| < |Pending(files, ledger)| && Pending(files, ledger)[|s.executed|] == files[i].name
  {
    var p := |Pending(files[..i], ledger)|;
    PendingPosition(files, ledger, i);
    RecordedMeansExecuted(files, ledger, s, i);
    ExecutedIsRecorded(files, ledger, s, p);
  }

  lemma ExecutedIsRecorded(files: seq<Migration>, ledger: set<string>, s: State, p: nat)
    requires Inv(files, ledger, s) && p < |Pending(files, ledger)|
    ensures p < |s.executed| ==> Pending(files, ledger)[p] in s.ledger
  {
    if p < |s.executed| { assert s.executed[p] == Pending(files, ledger)[p]; }
  }

  lemma CommitKeepsInv(files: seq<Migration>, ledger: set<string>, s: State, s': State, r: nat)
    requires DistinctNames(files) && Inv(files, ledger, s) && Commit(files, s, s', r)
    ensures Inv(files, ledger, s')
  {
    var i := s.runs[r].next;
    CommitIsNextPending(files, ledger, s, i);
    var name := files[i].name;
    assert SetOf(s'.executed) == SetOf(s.executed) + {name};
    forall q | q in s'.runs && s'.runs[q].Running? ensures RunInv(files, s', s'.runs[q]) {
      assert RunInv(files, s, s.runs[q]);
    }
  }

  lemma NextKeepsInv(files: seq<Migration>, ledger: set<string>, s: State, s': State)
    requires DistinctNames(files) && Inv(files, ledger, s) && Next(files, s, s')
    ensures Inv(files, ledger, s')
  {
    var r :| Load(s, s', r) || Skip(files, s, s', r) || Commit(files, s, s', r) || Abort(s, s', r)
             || Finish(files, s, s', r) || Start(s, s', r);
    if Commit(files, s, s', r) {
      CommitKeepsInv(files, ledger, s, s', r);
    } else {
      assert r in s.runs && s.runs[r].Running? ==> RunInv(files, s, s.runs[r]);
      forall q | q in s'.runs && s'.runs[q].Running? ensures RunInv(files, s', s'.runs[q]) {
        if q != r { assert RunInv(files, s, s.runs[q]); }
      }
    }
  }

  lemma {:induction false} InvHolds(files: seq<Migration>, ledger: set<string>, states: seq<State>, i: nat)
    requires DistinctNames(files) && IsBehavior(files, ledger, states) && i < |states|
    ensures Inv(files, ledger, states[i])
  {
    if i == 0 {
      assert SetOf([]) == {};
    } else {
      InvHolds(files, ledger, states, i - 1);
      assert Next(files, states[i - 1], states[i]);
      NextKeepsInv(files, ledger, states[i - 1], states[i]);
    }
  }

  /** In every interleaving: each pending file is committed at most once, in order, and nothing
      else is; and once any run has returned successfully, everything has been. */
  lemma {:induction false} MigrationsApplyOnceInOrder(files: seq<Migration>, ledger: set<string>, states: seq<State>,
                                                      i: nat)
    requires DistinctNames(files) && IsBehavior(files, ledger, states) && i < |states|
    ensures var s := states[i];
            s.executed <= Pending(files, ledger)
            && s.ledger == ledger + SetOf(s.executed)
            && ((exists r :: r in s.runs && s.runs[r].Finished?) ==>
                  s.executed == Pending(files, ledger) && forall j :: 0 <= j < |files| ==> files[j].name in s.ledger)
  {
    InvHolds(files, ledger, states, i);
    var s := states[i];
    if r :| r in s.runs && s.runs[r].Finished? {
      AllRecordedMeansAllExecuted(files, ledger, s);
    }
  }

  lemma AllRecordedMeansAllExecuted(files: seq<Migration>, ledger: set<string>, s: State)
    requires DistinctNames(files) && Inv(files, ledger, s) && forall j :: 0 <= j < |files| ==> files[j].name in s.ledger
    ensures s.executed == Pending(files, ledger)
  {
    RecordedMeansExecuted(files, ledger, s, |files|);
    assert files[..|files|] == files;
  }

  /** The names of the first `k` files. */
  function FirstNames(files: seq<Migration>, k: nat): set<string>
    requires k <= |files|
  {
    set i | 0 <= i < k :: files[i].name
  }

  lemma {:induction false} PendingAfterPrefix(files: seq<Migration>, m: nat, n: nat)
    requires DistinctNames(files) && m <= n <= |files|
    ensures var pending := Pending(files[..n], FirstNames(files, m));
            |pending| == n - m && forall q :: 0 <= q < n - m ==> pending[q] == files[m + q].name
  {
    if n == m {
      NothingPending(files[..n], FirstNames(files, m));
    } else {
      PendingAfterPrefix(files, m, n - 1);
      assert files[..n][..n - 1] == files[..n - 1];
      NotAmongFirst(files, m, n - 1);
    }
  }

  lemma NotAmongFirst(files: seq<Migration>, m: nat, i: nat)
    requires DistinctNames(files) && m <= i < |files|
    ensures files[i].name !in FirstNames(files, m)
  {
  }

  lemma {:induction false} NothingPending(front: seq<Migration>, applied: set<string>)
    requires forall i :: 0 <= i < |front| ==> front[i].name in applied
    ensures Pending(front, applied) == []
  {
    if front != [] { NothingPending(front[..|front| - 1], applied); }
  }

  /** Starting from a ledger that is a prefix of the files, it stays one. */
  lemma LedgerStaysPrefix(files: seq<Migration>, m: nat, states: seq<State>, i: nat) returns (k: nat)
    requires DistinctNames(files) && m <= |files|
    requires IsBehavior(files, FirstNames(files, m), states) && i < |states|
    ensures m <= k <= |files| && states[i].ledger == FirstNames(files, k)
  {
    var s := states[i];
    InvHolds(files, FirstNames(files, m), states, i);
    PendingAfterPrefix(files, m, |files|);
    assert files[..|files|] == files;
    k := m + |s.executed|;
    PrefixExtends(files, m, s.executed);
  }

  lemma PrefixExtends(files: seq<Migration>, m: nat, more: seq<string>)
    requires m + |more| <= |files| && forall q :: 0 <= q < |more| ==> more[q] == files[m + q].name
    ensures FirstNames(files, m) + SetOf(more) == FirstNames(files, m + |more|)
  {
    forall i | 0 <= i < m + |more| ensures files[i].name in FirstNames(files, m) + SetOf(more) {
      if i >= m { assert more[i - m] == files[i].name; }
    }
  }
}
