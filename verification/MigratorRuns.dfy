/**
 The one-replica view of `Migrator.SchemaDatabase` against its transition system:
 what `ApplyPending` does among other replicas is what some run does.
 */
module MigratorRuns {
  import opened Wrappers
  import opened Migrator

  /** One whole transaction of a replica that holds the lock alone: a migration is skipped or applied. */
  function Visit(versions: seq<nat>, s: State, r: int): State
    requires r in s.replicas && s.replicas[r].Between? && s.replicas[r].next < |versions|
  {
    var next := s.replicas[r].next;
    var after := Put(s, r, Finish(versions, next + 1));
    if versions[next] in s.recorded then after
    else
      after.(effects := s.effects + [versions[next]], recorded := s.recorded + {versions[next]},
             applied := s.applied[r := Report(s, r) + [versions[next]]])
  }

  lemma RunSnoc(versions: seq<nat>, history: seq<Action>, a: Action)
    requires Run(versions, history).Some?
    ensures Run(versions, history + [a]) == Step(versions, Run(versions, history).value, a)
  {
    assert (history + [a])[..|history|] == history;
  }

  lemma PutTwice(s: State, r: int, first: Replica, second: Replica)
    ensures Put(Put(s, r, first), r, second) == Put(s, r, second)
  {
    assert s.replicas[r := first][r := second] == s.replicas[r := second];
  }

  /** The transaction is a run of its steps. */
  lemma VisitRuns(versions: seq<nat>, history: seq<Action>, s: State, r: int) returns (longer: seq<Action>)
    requires Run(versions, history) == Some(s) && s.lock.None?
    requires r in s.replicas && s.replicas[r].Between? && s.replicas[r].next < |versions|
    ensures Run(versions, longer) == Some(Visit(versions, s, r))
  {
    var next := s.replicas[r].next;
    longer := history + [TakeLock(r)];
    RunSnoc(versions, history, TakeLock(r));
    var locked := Put(s, r, Locked(next)).(lock := Some(r));
    assert Run(versions, longer) == Some(locked);
    RunSnoc(versions, longer, Check(r));
    longer := longer + [Check(r)];
    if versions[next] in s.recorded {
      assert Run(versions, longer) == Some(Put(locked, r, AlreadyRecorded(next)));
    } else {
      PutTwice(locked, r, Pending(next), Executed(next));
      PutTwice(locked, r, Executed(next), Recorded(next));
      assert Run(versions, longer) == Some(Put(locked, r, Pending(next)));
      RunSnoc(versions, longer, Execute(r));
      longer := longer + [Execute(r)];
      assert Run(versions, longer) == Some(Put(locked, r, Executed(next)));
      RunSnoc(versions, longer, Record(r));
      longer := longer + [Record(r)];
      assert Run(versions, longer) == Some(Put(locked, r, Recorded(next)));
    }
    var before := Run(versions, longer).value;
    RunSnoc(versions, longer, Commit(r));
    longer := longer + [Commit(r)];
    CommitVisits(versions, s, before, r);
  }

  lemma CommitVisits(versions: seq<nat>, s: State, before: State, r: int)
    requires r in s.replicas && s.replicas[r].Between? && s.replicas[r].next < |versions| && s.lock.None?
    requires var next := s.replicas[r].next;
      var progress := if versions[next] in s.recorded then AlreadyRecorded(next) else Recorded(next);
      before == Put(s, r, progress).(lock := Some(r))
    ensures Step(versions, before, Commit(r)) == Some(Visit(versions, s, r))
  {
    var next := s.replicas[r].next;
    assert before.replicas[r := Finish(versions, next + 1)] == s.replicas[r := Finish(versions, next + 1)];
  }

  // ----- A replica among the others -----

  /**
   `k` migrations are applied, this replica (0) has been through `n` and applied
   `own` itself, and the others, here one replica (1), have been through all `k`.
   */
  predicate Among(versions: seq<nat>, s: State, k: nat, n: nat, own: seq<nat>) {
    && n <= |versions| && k <= |versions|
    && s.effects == versions[..k] && s.recorded == ToSet(versions[..k]) && s.lock.None?
    && s.replicas == map[0 := Finish(versions, n), 1 := Finish(versions, k)]
    && Report(s, 0) == own
  }

  lemma OthersRun(versions: seq<nat>, history: seq<Action>, s: State, k: nat, n: nat, own: seq<nat>, count: nat)
    returns (longer: seq<Action>, s': State)
    requires Ascending(versions) && Run(versions, history) == Some(s) && Among(versions, s, k, n, own)
    ensures Run(versions, longer) == Some(s') && Among(versions, s', Min(k + count, |versions|), n, own)
    decreases count
  {
    if count == 0 || k == |versions| {
      longer, s' := history, s;
    } else {
      longer := VisitRuns(versions, history, s, 1);
      s' := Visit(versions, s, 1);
      OtherApplies(versions, s, k, n, own);
      longer, s' := OthersRun(versions, longer, s', k + 1, n, own, count - 1);
    }
  }

  lemma OtherApplies(versions: seq<nat>, s: State, k: nat, n: nat, own: seq<nat>)
    requires Ascending(versions) && Among(versions, s, k, n, own) && k < |versions|
    ensures Among(versions, Visit(versions, s, 1), k + 1, n, own)
  {
    CheckSeesPrefix(versions, s.effects, s.recorded, k);
    assert versions[..k + 1] == versions[..k] + [versions[k]];
    assert ToSet(versions[..k + 1]) == ToSet(versions[..k]) + {versions[k]};
    assert s.replicas[1 := Finish(versions, k + 1)] == map[0 := Finish(versions, n), 1 := Finish(versions, k + 1)];
  }

  /** This replica's turn: it skips what is applied, or applies it and lets the others catch up. */
  lemma OwnTurn(versions: seq<nat>, history: seq<Action>, s: State, k: nat, n: nat, own: seq<nat>)
    returns (longer: seq<Action>, s': State)
    requires Ascending(versions) && Run(versions, history) == Some(s) && Among(versions, s, k, n, own)
    requires n < |versions| && n <= k
    ensures Run(versions, longer) == Some(s')
    ensures Among(versions, s', Max(k, n + 1), n + 1, if k == n then own + [versions[n]] else own)
  {
    longer := VisitRuns(versions, history, s, 0);
    s' := Visit(versions, s, 0);
    if k > n {
      OwnSkips(versions, s, k, n, own);
    } else {
      longer := VisitRuns(versions, longer, s', 1);
      OwnApplies(versions, s, n, own);
      s' := Visit(versions, s', 1);
    }
  }

  lemma OwnSkips(versions: seq<nat>, s: State, k: nat, n: nat, own: seq<nat>)
    requires Ascending(versions) && Among(versions, s, k, n, own) && n < |versions| && n < k
    ensures Among(versions, Visit(versions, s, 0), k, n + 1, own)
  {
    CheckSeesPrefix(versions, s.effects, s.recorded, n);
    assert s.replicas[0 := Finish(versions, n + 1)] == map[0 := Finish(versions, n + 1), 1 := Finish(versions, k)];
  }

  lemma OwnApplies(versions: seq<nat>, s: State, n: nat, own: seq<nat>)
    requires Ascending(versions) && Among(versions, s, n, n, own) && n < |versions|
    ensures var s' := Visit(versions, s, 0);
      && 1 in s'.replicas && s'.replicas[1] == Between(n)
      && Among(versions, Visit(versions, s', 1), n + 1, n + 1, own + [versions[n]])
  {
    CheckSeesPrefix(versions, s.effects, s.recorded, n);
    assert versions[..n + 1] == versions[..n] + [versions[n]];
    assert ToSet(versions[..n + 1]) == ToSet(versions[..n]) + {versions[n]};
    assert s.replicas[0 := Finish(versions, n + 1)][1 := Finish(versions, n + 1)]
        == map[0 := Finish(versions, n + 1), 1 := Finish(versions, n + 1)];
  }

  /** How many migrations are applied when this replica has been through `n`. */
  function AppliedBy(total: nat, start: nat, others: nat -> nat, n: nat): nat
    requires start <= total && n <= total
  {
    if n == 0 then start else Max(n, AppliedAt(total, start, others, n - 1))
  }

  lemma {:induction false} PendingRun(versions: seq<nat>, start: nat, others: nat -> nat, n: nat)
    returns (history: seq<Action>, s: State)
    requires Ascending(versions) && start <= |versions| && n <= |versions|
    ensures Run(versions, history) == Some(s)
    ensures Among(versions, s, AppliedBy(|versions|, start, others, n), n, OwnVersions(versions, start, others, n))
  {
    var total := |versions|;
    if n == 0 {
      history, s := BothStarted(versions);
      history, s := OthersRun(versions, history, s, 0, 0, [], start);
    } else {
      var m := n - 1;
      history, s := PendingRun(versions, start, others, m);
      TurnCounts(versions, start, others, m);
      history, s := NextTurn(versions, history, s, AppliedBy(total, start, others, m), m,
                             OwnVersions(versions, start, others, m), others(m),
                             AppliedBy(total, start, others, n), OwnVersions(versions, start, others, n));
    }
  }

  /** The others get further, and then it is this replica's turn. */
  lemma NextTurn(versions: seq<nat>, history: seq<Action>, s: State, k: nat, n: nat, own: seq<nat>, count: nat,
                 k': nat, own': seq<nat>) returns (longer: seq<Action>, s': State)
    requires Ascending(versions) && Run(versions, history) == Some(s) && Among(versions, s, k, n, own)
    requires n < |versions| && n <= Min(k + count, |versions|) && k' == Max(Min(k + count, |versions|), n + 1)
    requires own' == if Min(k + count, |versions|) == n then own + [versions[n]] else own
    ensures Run(versions, longer) == Some(s') && Among(versions, s', k', n + 1, own')
  {
    longer, s' := OthersRun(versions, history, s, k, n, own, count);
    longer, s' := OwnTurn(versions, longer, s', Min(k + count, |versions|), n, own);
  }

  /** The counts of `OwnVersions`, as the run meets them. */
  lemma TurnCounts(versions: seq<nat>, start: nat, others: nat -> nat, n: nat)
    requires start <= |versions| && n < |versions|
    ensures var seen := AppliedAt(|versions|, start, others, n);
      && n <= seen <= |versions|
      && Min(AppliedBy(|versions|, start, others, n) + others(n), |versions|) == seen
      && Max(seen, n + 1) == AppliedBy(|versions|, start, others, n + 1)
      && OwnVersions(versions, start, others, n + 1)
         == if seen == n then OwnVersions(versions, start, others, n) + [versions[n]]
            else OwnVersions(versions, start, others, n)
  {
    AppliedGrows(|versions|, start, others, n);
    if n > 0 { AppliedGrows(|versions|, start, others, n - 1); }
  }

  lemma BothStarted(versions: seq<nat>) returns (history: seq<Action>, s: State)
    ensures Run(versions, history) == Some(s) && Among(versions, s, 0, 0, [])
  {
    RunSnoc(versions, [], Start(0));
    RunSnoc(versions, [] + [Start(0)], Start(1));
    history := [] + [Start(0)] + [Start(1)];
    s := Run(versions, history).value;
    assert s.replicas == map[0 := Finish(versions, 0), 1 := Finish(versions, 0)];
  }

  /**
   For any number of migrations applied before it starts and any progress of the
   others before each lock, there is a run in which a replica returns the versions
   `ApplyPending` returns, and leaves the schema `ApplyPending` leaves.
   */
  lemma ApplyPendingIsARun(versions: seq<nat>, start: nat, others: nat -> nat) returns (history: seq<Action>)
    requires Ascending(versions) && start <= |versions|
    ensures Run(versions, history).Some?
    ensures var s := Run(versions, history).value;
      && 0 in s.replicas && s.replicas[0].Returned? && s.effects == versions
      && Report(s, 0) == OwnVersions(versions, start, others, |versions|)
  {
    var s;
    history, s := PendingRun(versions, start, others, |versions|);
    if |versions| > 0 { AppliedBounded(|versions|, start, others, |versions| - 1); }
    assert versions[..|versions|] == versions;
  }

  lemma AppliedBounded(total: nat, start: nat, others: nat -> nat, n: nat)
    ensures AppliedAt(total, start, others, n) <= total
  {
  }
}
