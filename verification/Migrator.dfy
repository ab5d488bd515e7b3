/**
 Numbered migrations of storage_consumer/persistence/migrator.py: discovery in
 version order, one replica applying what is pending, and any number of replicas
 doing so at once under one transaction-scoped advisory lock.
 */
module Migrator {
  import opened Wrappers

  // ----- Discovery -----

  /** A `*.sql` file, as its name parses. */
  datatype MigrationFile = Numbered(version: nat, name: string) | Misnamed(path: string)

  predicate Ascending(versions: seq<nat>) {
    forall i, j :: 0 <= i < j < |versions| ==> versions[i] < versions[j]
  }

  predicate SortedFiles(ms: seq<MigrationFile>) {
    && (forall i :: 0 <= i < |ms| ==> ms[i].Numbered?)
    && (forall i, j :: 0 <= i < j < |ms| ==> ms[i].version < ms[j].version)
  }

  predicate AllNumbered(files: seq<MigrationFile>) {
    forall i :: 0 <= i < |files| ==> files[i].Numbered?
  }

  predicate DistinctVersions(files: seq<MigrationFile>)
    requires AllNumbered(files)
  {
    forall i, j :: 0 <= i < j < |files| ==> files[i].version != files[j].version
  }

  predicate Claims(files: seq<MigrationFile>, version: nat)
    requires AllNumbered(files)
  {
    exists i :: 0 <= i < |files| && files[i].version == version
  }

  predicate Discoverable(files: seq<MigrationFile>) {
    files != [] && AllNumbered(files) && DistinctVersions(files)
  }

  /** `discover_migrations`: the files in version order, or an error naming what is wrong. */
  method DiscoverMigrations(files: seq<MigrationFile>) returns (r: Result<seq<MigrationFile>, string>)
    ensures r.Ok? <==> Discoverable(files)
    ensures r.Ok? ==> multiset(r.value) == multiset(files) && SortedFiles(r.value)
  {
    var sorted: seq<MigrationFile> := [];
    for i := 0 to |files|
      invariant Gathered(sorted, files[..i])
    {
      assert files[..i + 1] == files[..i] + [files[i]];
      var added := AddFile(sorted, files[..i], files[i]);
      if added.Err? {
        Undiscoverable(files, i);
        return added;
      }
      sorted := added.value;
    }
    assert files[..|files|] == files;
    if sorted == [] {
      return Err("No migration files found");
    }
    return Ok(sorted);
  }

  /** `ms` holds the given files, in version order, without a repeated version. */
  ghost predicate Gathered(ms: seq<MigrationFile>, files: seq<MigrationFile>) {
    multiset(ms) == multiset(files) && SortedFiles(ms) && AllNumbered(files) && DistinctVersions(files)
  }

  method AddFile(ms: seq<MigrationFile>, ghost before: seq<MigrationFile>, f: MigrationFile)
    returns (r: Result<seq<MigrationFile>, string>)
    requires Gathered(ms, before)
    ensures r.Ok? <==> f.Numbered? && !Claims(before, f.version)
    ensures r.Ok? ==> Gathered(r.value, before + [f])
  {
    if f.Misnamed? {
      return Err("does not follow NNNN_name.sql");
    }
    SameClaims(ms, before, f.version);
    var at := Position(ms, f.version);
    if at < |ms| && ms[at].version == f.version {
      return Err("version is claimed by two files");
    }
    Inserted(ms, at, f);
    return Ok(ms[..at] + [f] + ms[at..]);
  }

  lemma Undiscoverable(files: seq<MigrationFile>, i: nat)
    requires i < |files| && AllNumbered(files[..i])
    requires files[i].Misnamed? || Claims(files[..i], files[i].version)
    ensures !Discoverable(files)
  {
  }

  lemma SameClaims(a: seq<MigrationFile>, b: seq<MigrationFile>, version: nat)
    requires AllNumbered(a) && AllNumbered(b) && multiset(a) == multiset(b)
    ensures Claims(a, version) <==> Claims(b, version)
  {
    if Claims(a, version) {
      var i :| 0 <= i < |a| && a[i].version == version;
      assert a[i] in multiset(b);
      var j :| 0 <= j < |b| && b[j] == a[i];
    }
    if Claims(b, version) {
      var i :| 0 <= i < |b| && b[i].version == version;
      assert b[i] in multiset(a);
      var j :| 0 <= j < |a| && a[j] == b[i];
    }
  }

  lemma Inserted(ms: seq<MigrationFile>, at: nat, f: MigrationFile)
    requires SortedFiles(ms) && f.Numbered? && at <= |ms|
    requires forall i :: 0 <= i < at ==> ms[i].version < f.version
    requires forall i :: at <= i < |ms| ==> f.version < ms[i].version
    ensures SortedFiles(ms[..at] + [f] + ms[at..])
    ensures multiset(ms[..at] + [f] + ms[at..]) == multiset(ms) + multiset{f}
  {
    assert ms == ms[..at] + ms[at..];
  }

  method Position(ms: seq<MigrationFile>, version: nat) returns (at: nat)
    requires SortedFiles(ms)
    ensures at <= |ms|
    ensures forall i :: 0 <= i < at ==> ms[i].version < version
    ensures forall i :: at <= i < |ms| ==> version <= ms[i].version
    ensures forall i :: at < i < |ms| ==> version < ms[i].version
  {
    at := 0;
    while at < |ms| && ms[at].version < version
      invariant at <= |ms|
      invariant forall i :: 0 <= i < at ==> ms[i].version < version
    {
      at := at + 1;
    }
  }

  // ----- Replicas -----

  /**
   Where a replica is. `next` counts the migrations it has been through; from
   `Locked` to `Recorded` it is inside the transaction that holds the lock.
   */
  datatype Replica =
    | Between(next: nat)
    | Locked(next: nat)
    | AlreadyRecorded(next: nat)
    | Pending(next: nat)
    | Executed(next: nat)
    | Recorded(next: nat)
    | Returned
    | Raised

  predicate InTransaction(r: Replica) {
    r.Locked? || r.AlreadyRecorded? || r.Pending? || r.Executed? || r.Recorded?
  }

  /**
   `effects` are the committed schema changes, in order; `recorded` the migrations
   table; `applied` what each replica has applied itself since it started.
   */
  datatype State = State(effects: seq<nat>, recorded: set<nat>, lock: Option<int>, replicas: map<int, Replica>,
                         applied: map<int, seq<nat>>)

  datatype Action =
    | Start(r: int)
    | TakeLock(r: int)
    | Check(r: int)
    | Execute(r: int)
    | Record(r: int)
    | Commit(r: int)
    | Rollback(r: int)
    | Crash(r: int)

  function Initial(): State { State([], {}, None, map[], map[]) }

  /** What a replica reports when it returns. */
  function Report(s: State, r: int): seq<nat> { if r in s.applied then s.applied[r] else [] }

  function Put(s: State, r: int, replica: Replica): State {
    s.(replicas := s.replicas[r := replica])
  }

  /** Leaving the transaction releases the lock. */
  function Release(s: State, r: int, replica: Replica): State {
    Put(s, r, replica).(lock := None)
  }

  function Finish(versions: seq<nat>, next: nat): Replica {
    if next < |versions| then Between(next) else Returned
  }

  function Step(versions: seq<nat>, s: State, a: Action): Option<State> {
    if a.Start? then
      if a.r in s.replicas && !s.replicas[a.r].Returned? && !s.replicas[a.r].Raised? then None
      else Some(Put(s, a.r, Finish(versions, 0)).(applied := s.applied[a.r := []]))
    else if a.r !in s.replicas then None
    else
      var me := s.replicas[a.r];
      match a
      case TakeLock(r) =>
        if me.Between? && s.lock.None? then Some(Put(s, r, Locked(me.next)).(lock := Some(r))) else None
      case Check(r) =>
        if me.Locked? && me.next < |versions|
        then Some(Put(s, r, if versions[me.next] in s.recorded then AlreadyRecorded(me.next) else Pending(me.next)))
        else None
      case Execute(r) => if me.Pending? then Some(Put(s, r, Executed(me.next))) else None
      case Record(r) => if me.Executed? then Some(Put(s, r, Recorded(me.next))) else None
      case Commit(r) =>
        if me.AlreadyRecorded? then Some(Release(s, r, Finish(versions, me.next + 1)))
        else if me.Recorded? && me.next < |versions| then
          Some(Release(s, r, Finish(versions, me.next + 1)).(
            effects := s.effects + [versions[me.next]],
            recorded := s.recorded + {versions[me.next]},
            applied := s.applied[r := Report(s, r) + [versions[me.next]]]))
        else None
      case Rollback(r) => if InTransaction(me) then Some(Release(s, r, Raised)) else None
      case Crash(r) => if InTransaction(me) then Some(Release(s, r, Raised)) else Some(Put(s, r, Raised))
  }

  function Run(versions: seq<nat>, actions: seq<Action>): Option<State> {
    if actions == [] then Some(Initial())
    else
      match Run(versions, actions[..|actions| - 1])
      case None => None
      case Some(s) => Step(versions, s, actions[|actions| - 1])
  }

  function ToSet(xs: seq<nat>): set<nat> { set x | x in xs }

  ghost predicate ReplicaOk(versions: seq<nat>, s: State, r: int, me: Replica) {
    && (me.Between? || InTransaction(me) ==> me.next < |versions| && me.next <= |s.effects|)
    && (InTransaction(me) ==> s.lock == Some(r))
    && (me.AlreadyRecorded? ==> me.next < |s.effects|)
    && (me.Pending? || me.Executed? || me.Recorded? ==> me.next == |s.effects|)
    && (me.Returned? ==> |s.effects| == |versions|)
  }

  /** What has been applied is a prefix of the versions in ascending order, and is what is recorded. */
  ghost predicate Consistent(versions: seq<nat>, s: State) {
    && s.effects <= versions
    && s.recorded == ToSet(s.effects)
    && forall r :: r in s.replicas ==> ReplicaOk(versions, s, r, s.replicas[r])
  }

  lemma StepKeepsConsistent(versions: seq<nat>, s: State, a: Action)
    requires Ascending(versions) && Consistent(versions, s) && Step(versions, s, a).Some?
    ensures Consistent(versions, Step(versions, s, a).value)
    ensures s.effects <= Step(versions, s, a).value.effects
  {
    var s' := Step(versions, s, a).value;
    if a.r in s.replicas { assert ReplicaOk(versions, s, a.r, s.replicas[a.r]); }
    if a.Check? { CheckSeesPrefix(versions, s.effects, s.recorded, s.replicas[a.r].next); }
    if a.Commit? && s.replicas[a.r].Recorded? {
      assert ToSet(s'.effects) == ToSet(s.effects) + {versions[s.replicas[a.r].next]};
    }
    forall r | r in s'.replicas ensures ReplicaOk(versions, s', r, s'.replicas[r]) {
      if r != a.r { assert ReplicaOk(versions, s, r, s.replicas[r]); }
    }
  }

  /** The check under the lock finds exactly the versions already applied. */
  lemma CheckSeesPrefix(versions: seq<nat>, effects: seq<nat>, recorded: set<nat>, next: nat)
    requires Ascending(versions) && effects <= versions && recorded == ToSet(effects)
    requires next < |versions|
    ensures versions[next] in recorded <==> next < |effects|
  {
  }

  lemma {:induction false} RunIsConsistent(versions: seq<nat>, actions: seq<Action>)
    requires Ascending(versions) && Run(versions, actions).Some?
    ensures Consistent(versions, Run(versions, actions).value)
  {
    if actions == [] {
    } else {
      RunIsConsistent(versions, actions[..|actions| - 1]);
      StepKeepsConsistent(versions, Run(versions, actions[..|actions| - 1]).value, actions[|actions| - 1]);
    }
  }

  /**
   However replicas interleave, fail and restart: no version takes effect twice,
   what is recorded is what took effect, in ascending order without gaps, and a
   replica returns only when every migration is recorded.
   */
  lemma MigrationsApplyOnce(versions: seq<nat>, actions: seq<Action>)
    requires Ascending(versions) && Run(versions, actions).Some?
    ensures var s := Run(versions, actions).value;
      && s.effects <= versions
      && (forall i, j :: 0 <= i < j < |s.effects| ==> s.effects[i] != s.effects[j])
      && s.recorded == ToSet(s.effects)
      && (forall r :: r in s.replicas && s.replicas[r].Returned? ==> s.recorded == ToSet(versions))
  {
    RunIsConsistent(versions, actions);
    var s := Run(versions, actions).value;
    forall r | r in s.replicas && s.replicas[r].Returned? ensures s.recorded == ToSet(versions) {
      assert ReplicaOk(versions, s, r, s.replicas[r]);
    }
  }

  /** What a replica reports took effect, in ascending order. */
  ghost predicate ReportOk(s: State, r: int) {
    Ascending(Report(s, r)) && forall v :: v in Report(s, r) ==> v in s.effects
  }

  ghost predicate ReportsOk(s: State) {
    && (forall r :: ReportOk(s, r))
    && (forall r, q, v :: r != q && v in Report(s, r) ==> v !in Report(s, q))
  }

  /** A version newly applied is in no report yet, and later than everything reported. */
  lemma NewReport(s: State, s': State, r: int, v: nat)
    requires ReportsOk(s) && (forall w :: w in s.effects ==> w < v)
    requires s'.effects == s.effects + [v] && s'.applied == s.applied[r := Report(s, r) + [v]]
    ensures ReportsOk(s')
  {
    forall q ensures ReportOk(s', q) {
      assert ReportOk(s, q);
      assert forall i :: 0 <= i < |Report(s, q)| ==> Report(s, q)[i] in Report(s, q);
    }
    forall q, p, w | q != p && w in Report(s', q) ensures w !in Report(s', p) {
      assert ReportOk(s, q) && ReportOk(s, p);
    }
  }

  lemma StepKeepsReports(versions: seq<nat>, s: State, a: Action)
    requires Ascending(versions) && Consistent(versions, s) && ReportsOk(s) && Step(versions, s, a).Some?
    ensures ReportsOk(Step(versions, s, a).value)
  {
    var s' := Step(versions, s, a).value;
    if a.Commit? && s.replicas[a.r].Recorded? {
      assert ReplicaOk(versions, s, a.r, s.replicas[a.r]);
      NewReport(s, s', a.r, versions[|s.effects|]);
    } else {
      assert s'.effects == s.effects;
      assert forall r :: Report(s', r) == Report(s, r) || Report(s', r) == [];
      forall r ensures ReportOk(s', r) { assert ReportOk(s, r); }
    }
  }

  /** However replicas interleave, an applied version is reported by at most one of them. */
  lemma {:induction false} ReportsAreDisjoint(versions: seq<nat>, actions: seq<Action>)
    requires Ascending(versions) && Run(versions, actions).Some?
    ensures ReportsOk(Run(versions, actions).value)
  {
    if actions == [] {
    } else {
      ReportsAreDisjoint(versions, actions[..|actions| - 1]);
      RunIsConsistent(versions, actions[..|actions| - 1]);
      StepKeepsReports(versions, Run(versions, actions[..|actions| - 1]).value, actions[|actions| - 1]);
    }
  }

  /** At most one replica is ever inside the critical transaction. */
  lemma OneReplicaAtATime(versions: seq<nat>, actions: seq<Action>, a: int, b: int)
    requires Ascending(versions) && Run(versions, actions).Some?
    requires var s := Run(versions, actions).value;
      && a in s.replicas && b in s.replicas
      && InTransaction(s.replicas[a]) && InTransaction(s.replicas[b])
    ensures a == b
  {
    RunIsConsistent(versions, actions);
    var s := Run(versions, actions).value;
    assert ReplicaOk(versions, s, a, s.replicas[a]) && ReplicaOk(versions, s, b, s.replicas[b]);
  }

  // ----- One replica among others -----

  /** How many migrations are applied when this replica takes its `n`-th lock; `others` advance before each. */
  function AppliedAt(total: nat, start: nat, others: nat -> nat, n: nat): nat {
    var before := if n == 0 then start
                  else var seen := AppliedAt(total, start, others, n - 1); if seen == n - 1 then n else seen;
    Min(before + others(n), total)
  }

  /** Is the `n`-th migration left for this replica? */
  predicate IsOwn(total: nat, start: nat, others: nat -> nat, n: nat) {
    AppliedAt(total, start, others, n) == n
  }

  /** Of the first `n` versions, those this replica applies. */
  function OwnVersions(versions: seq<nat>, start: nat, others: nat -> nat, n: nat): seq<nat>
    requires n <= |versions|
  {
    if n == 0 then []
    else
      OwnVersions(versions, start, others, n - 1)
      + (if IsOwn(|versions|, start, others, n - 1) then [versions[n - 1]] else [])
  }

  /** What a replica applies is in ascending order, and none of it was applied before it started. */
  lemma {:induction false} OwnVersionsAscend(versions: seq<nat>, start: nat, others: nat -> nat, n: nat)
    requires Ascending(versions) && n <= |versions| && start <= |versions|
    ensures Ascending(OwnVersions(versions, start, others, n))
    ensures forall v :: v in OwnVersions(versions, start, others, n) ==> exists i :: start <= i < n && versions[i] == v
  {
    if n == 0 {
    } else {
      OwnVersionsAscend(versions, start, others, n - 1);
      AppliedGrows(|versions|, start, others, n - 1);
      var before := OwnVersions(versions, start, others, n - 1);
      forall i | 0 <= i < |before| ensures before[i] < versions[n - 1] {
        assert before[i] in before;
      }
    }
  }

  lemma {:induction false} AppliedGrows(total: nat, start: nat, others: nat -> nat, n: nat)
    requires start <= total && n < total
    ensures start <= AppliedAt(total, start, others, n) && n <= AppliedAt(total, start, others, n)
  {
    if n == 0 {
    } else {
      AppliedGrows(total, start, others, n - 1);
    }
  }

  /** A replica with no competition applies everything still missing. */
  lemma {:induction false} AloneAppliesTheRest(versions: seq<nat>, start: nat, others: nat -> nat, n: nat)
    requires start <= |versions| && n <= |versions|
    requires forall i: nat :: others(i) == 0
    ensures OwnVersions(versions, start, others, n) == if n <= start then [] else versions[start..n]
    ensures n < |versions| ==> AppliedAt(|versions|, start, others, n) == Max(start, n)
  {
    if n == 0 {
    } else {
      AloneAppliesTheRest(versions, start, others, n - 1);
    }
  }

  class SchemaDatabase {
    /** The committed schema changes, in order, and the migrations table. */
    var effects: seq<nat>
    var recorded: set<nat>

    ghost predicate Valid(versions: seq<nat>)
      reads this
    {
      effects <= versions && recorded == ToSet(effects)
    }

    constructor ()
      ensures effects == [] && recorded == {}
    {
      effects, recorded := [], {};
    }

    /** Other replicas get `count` migrations further before this one holds the lock. */
    method OthersApply(versions: seq<nat>, count: nat)
      requires Valid(versions)
      modifies this
      ensures Valid(versions) && old(effects) <= effects
      ensures |effects| == Min(|old(effects)| + count, |versions|)
    {
      var upTo := if |effects| + count < |versions| then |effects| + count else |versions|;
      effects := versions[..upTo];
      recorded := ToSet(effects);
    }

    /** `_apply_one`: check under the lock, then change the schema and record it together. */
    method ApplyOne(versions: seq<nat>, next: nat, fails: bool) returns (r: Result<bool, string>)
      requires Ascending(versions) && Valid(versions) && next < |versions| && next <= |effects|
      modifies this
      ensures Valid(versions) && old(effects) <= effects
      ensures r.Err? <==> next == |old(effects)| && fails
      ensures r.Err? ==> effects == old(effects)
      ensures r.Ok? ==> next < |effects|
      ensures r.Ok? ==> (r.value <==> next == |old(effects)|)
      ensures r.Ok? ==> effects == if r.value then old(effects) + [versions[next]] else old(effects)
    {
      CheckSeesPrefix(versions, effects, recorded, next);
      if versions[next] in recorded {
        return Ok(false);
      }
      if fails {
        return Err("Migration failed and was rolled back");
      }
      effects := effects + [versions[next]];
      recorded := recorded + {versions[next]};
      return Ok(true);
    }

    /**
     `apply_pending`: every migration in version order. `others` says how far the
     other replicas get before each lock, `failing` where this one fails.
     */
    method ApplyPending(versions: seq<nat>, others: nat -> nat, failing: nat -> bool)
      returns (r: Result<seq<nat>, string>)
      requires Ascending(versions) && Valid(versions)
      modifies this
      ensures Valid(versions) && old(effects) <= effects
      ensures r.Ok? ==> effects == versions && recorded == ToSet(versions)
      ensures r.Ok? ==> r.value == OwnVersions(versions, |old(effects)|, others, |versions|)
      ensures r.Err? <==> exists n :: 0 <= n < |versions| && IsOwn(|versions|, |old(effects)|, others, n) && failing(n)
    {
      var applied: seq<nat> := [];
      ghost var start, total := |effects|, |versions|;
      for next := 0 to |versions|
        invariant Valid(versions) && old(effects) <= effects
        invariant next <= |effects|
        invariant next > 0 ==> |effects| == Max(next, AppliedAt(total, start, others, next - 1))
        invariant next == 0 ==> |effects| == start
        invariant applied == OwnVersions(versions, start, others, next)
        invariant forall n :: 0 <= n < next && IsOwn(total, start, others, n) ==> !failing(n)
      {
        if next > 0 { AppliedGrows(total, start, others, next - 1); }
        OthersApply(versions, others(next));
        assert |effects| == AppliedAt(total, start, others, next);
        var result := ApplyOne(versions, next, failing(next));
        if result.Err? {
          return Err(result.error);
        }
        if result.value {
          applied := applied + [versions[next]];
        }
      }
      return Ok(applied);
    }
  }
}
