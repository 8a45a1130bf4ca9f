/** One reaper pass at boot: every row still marked running is skipped, re-attached to a watcher,
    or finished. What the operating system, the report file and the database say is input, one `Probe`
    per run. */
module Recovery {
  import opened Collections
  import opened Wrappers
  import opened RunStore

  /** The last three say whether each of the pass's transactions on the run commits. */
  datatype Probe = Probe(
    pidAlive: bool, argvMatches: bool, reportComplete: bool, enrichmentRaises: bool,
    claimCommits: bool, reclaimCommits: bool, finishCommits: bool)

  datatype Verdict = SkippedClaimed | ReattachedLive | CompletedFromReport | CrashedEngine | AbandonedRun

  datatype Counters = Counters(
    checked: nat, reattached: nat, reapedCompleted: nat,
    reapedFailed: nat, reapedAbandoned: nat, skippedClaimed: nat)

  predicate EngineLive(row: Row, p: Probe) {
    row.enginePid.Some? && row.enginePid.value > 0 && p.pidAlive && p.argvMatches
  }

  predicate Claims(row: Row, p: Probe) { row.Claimable() && p.claimCommits }

  predicate Reclaims(row: Row, p: Probe, now: int) {
    row.PastDeadline(now) && row.Reclaimable() && p.reclaimCommits
  }

  predicate Owned(row: Row, p: Probe, now: int) { Claims(row, p) || Reclaims(row, p, now) }

  /** What the winner of a claim decides, in the order the source checks: liveness, report, deadline. */
  function Judge(row: Row, reclaimed: bool, p: Probe, now: int): Verdict {
    if !reclaimed && EngineLive(row, p) then ReattachedLive
    else if p.reportComplete then CompletedFromReport
    else if row.PastDeadline(now) && !reclaimed then AbandonedRun
    else CrashedEngine
  }

  /** A report is ingested even when its enrichment raises. */
  function IngestVerdict(p: Probe): RecoveryState {
    if p.enrichmentRaises then RunStore.ReapedCompletedDegraded else RunStore.ReapedCompleted
  }

  /** The row after the verdict's transaction, which a failing commit rolls back. */
  function Settle(row: Row, v: Verdict, p: Probe): Row {
    if !p.finishCommits then row
    else
      match v
      case SkippedClaimed => row
      case ReattachedLive => row
      case CompletedFromReport => row.Finish(Completed, Some(IngestVerdict(p)))
      case AbandonedRun => row.Finish(Failed, Some(RunStore.ReapedAbandoned))
      case CrashedEngine => row.Finish(Failed, Some(RunStore.ReapedFailed))
  }

  function VerdictOn(row: Row, p: Probe, now: int): Verdict {
    if Owned(row, p, now) then Judge(row, !row.Claimable(), p, now) else SkippedClaimed
  }

  function Reconciled(row: Row, p: Probe, now: int): Row {
    if Owned(row, p, now) then Settle(row.(recovery := Some(Claimed)), VerdictOn(row, p, now), p) else row
  }

  /** What both listing queries return: running rows, each once. */
  ghost predicate Listing(active: seq<RunId>, rows: map<RunId, Row>) {
    && (forall i :: 0 <= i < |active| ==> active[i] in rows && rows[active[i]].status == Running)
    && Distinct(active)
  }

  function Bump(c: Counters, v: Verdict): Counters {
    match v
    case SkippedClaimed => c.(skippedClaimed := c.skippedClaimed + 1)
    case ReattachedLive => c.(reattached := c.reattached + 1)
    case CompletedFromReport => c.(reapedCompleted := c.reapedCompleted + 1)
    case AbandonedRun => c.(reapedAbandoned := c.reapedAbandoned + 1)
    case CrashedEngine => c.(reapedFailed := c.reapedFailed + 1)
  }

  /** The table, the counters and the runs with a watcher thread, part-way through a pass. */
  datatype Progress = Progress(rows: map<RunId, Row>, counters: Counters, watched: seq<RunId>)

  function Advance(s: Progress, id: RunId, p: Probe, now: int): Progress
    requires id in s.rows
  {
    var v := VerdictOn(s.rows[id], p, now);
    Progress(s.rows[id := Reconciled(s.rows[id], p, now)], Bump(s.counters, v),
             s.watched + if v == ReattachedLive then [id] else [])
  }

  /** The state after the first `n` listed runs. */
  function Pass(active: seq<RunId>, rows: map<RunId, Row>, probe: RunId -> Probe, now: int, n: nat): (s: Progress)
    requires Listing(active, rows) && n <= |active|
    ensures s.rows.Keys == rows.Keys
  {
    if n == 0 then Progress(rows, Counters(|active|, 0, 0, 0, 0, 0), [])
    else Advance(Pass(active, rows, probe, now, n - 1), active[n - 1], probe(active[n - 1]), now)
  }

  /** The body of the reaper's loop: claim, else reclaim past the deadline, then settle. */
  method ReconcileRun(history: ScanHistory, id: RunId, p: Probe, now: int) returns (v: Verdict)
    requires id in history.rows
    modifies history
    ensures v == VerdictOn(old(history.rows)[id], p, now)
    ensures history.rows == old(history.rows)[id := Reconciled(old(history.rows)[id], p, now)]
  {
    var pastDeadline := history.rows[id].PastDeadline(now);
    var reclaimed := false;
    var won := history.ClaimForRecovery(id, p.claimCommits);
    if !won {
      if pastDeadline {
        reclaimed := history.ReclaimFinalizing(id, p.reclaimCommits);
      }
      if !reclaimed {
        return SkippedClaimed;
      }
    }
    if !reclaimed && EngineLive(history.rows[id], p) {
      return ReattachedLive;
    }
    if p.reportComplete {
      history.RecordFinish(id, Completed, Some(IngestVerdict(p)), p.finishCommits);
      return CompletedFromReport;
    }
    if pastDeadline && !reclaimed {
      history.RecordFinish(id, Failed, Some(RunStore.ReapedAbandoned), p.finishCommits);
      return AbandonedRun;
    }
    history.RecordFinish(id, Failed, Some(RunStore.ReapedFailed), p.finishCommits);
    return CrashedEngine;
  }

  /** The row after the watcher saw its engine exit. */
  function Exited(row: Row, p: Probe): Row {
    if p.reportComplete then row.Finish(Completed, Some(IngestVerdict(p)))
    else row.Finish(Failed, Some(RunStore.Reattached))
  }

  /** The watcher thread of a re-attached run; `polls` are its successive liveness checks. */
  method WatchLoop(history: ScanHistory, id: RunId, polls: seq<bool>, p: Probe) returns (exited: bool)
    modifies history
    ensures exited <==> false in polls
    ensures history.rows
      == if exited && p.finishCommits && id in old(history.rows)
         then old(history.rows)[id := Exited(old(history.rows)[id], p)] else old(history.rows)
    ensures exited && p.finishCommits && id in history.rows ==>
      history.rows[id].Settled() && (history.rows[id].status == Completed <==> p.reportComplete)
    ensures exited && p.finishCommits && id in old(history.rows) ==>
      history.rows[id] == old(history.rows)[id].(
        status := if p.reportComplete then Completed else Failed,
        recovery := Some(if !p.reportComplete then Reattached
                         else if p.enrichmentRaises then ReapedCompletedDegraded else ReapedCompleted),
        enginePid := None)
  {
    for i := 0 to |polls|
      invariant false !in polls[..i] && history.rows == old(history.rows)
    {
      if polls[i] {
        continue;
      }
      if p.reportComplete {
        history.RecordFinish(id, Completed, Some(IngestVerdict(p)), p.finishCommits);
      } else {
        history.RecordFinish(id, Failed, Some(RunStore.Reattached), p.finishCommits);
      }
      return true;
    }
    exited := false;
  }

  method ReapOrphanRuns(history: ScanHistory, active: seq<RunId>, probe: RunId -> Probe, now: int)
    returns (counters: Counters, watched: seq<RunId>)
    requires Listing(active, history.rows)
    modifies history
    ensures Progress(history.rows, counters, watched) == Pass(active, old(history.rows), probe, now, |active|)
  {
    counters := Counters(|active|, 0, 0, 0, 0, 0);
    watched := [];
    ghost var before := history.rows;
    for i := 0 to |active|
      invariant Progress(history.rows, counters, watched) == Pass(active, before, probe, now, i)
    {
      var v := ReconcileRun(history, active[i], probe(active[i]), now);
      counters := Bump(counters, v);
      if v == ReattachedLive {
        watched := watched + [active[i]];
      }
    }
  }

  /** The pass treats every listed row by its own state alone, in whatever order they are listed. */
  lemma {:induction false} PassReconcilesEachRow(active: seq<RunId>, rows: map<RunId, Row>, probe: RunId -> Probe,
                                                 now: int, n: nat, id: RunId)
    requires Listing(active, rows) && n <= |active| && id in rows
    ensures var s, listed := Pass(active, rows, probe, now, n), id in active[..n];
      && s.rows[id] == (if listed then Reconciled(rows[id], probe(id), now) else rows[id])
      && (id in s.watched <==> listed && VerdictOn(rows[id], probe(id), now) == ReattachedLive)
  {
    if n > 0 {
      PassReconcilesEachRow(active, rows, probe, now, n - 1, id);
      assert active[..n] == active[..n - 1] + [active[n - 1]];
      assert active[n - 1] !in active[..n - 1];
    }
  }

  /** What the pass may and may not do to a listed row, in terms of the row before and after. A row it does
      not own stays. A watcher is spawned exactly for a claimed row with a live engine, and a live engine
      is finished under only when the row was reclaimed from a crashed finalizer. Every other owned row ends
      settled: completed exactly with a complete report, degraded exactly when enrichment raised, abandoned
      exactly when it was claimed past its deadline; or it stays claimed when that commit fails. */
  lemma PassIsSafe(active: seq<RunId>, rows: map<RunId, Row>, probe: RunId -> Probe, now: int, id: RunId)
    requires Listing(active, rows) && id in active
    ensures var s := Pass(active, rows, probe, now, |active|);
      var row, row', p := rows[id], s.rows[id], probe(id);
      && (row' == row <==> !Owned(row, p, now))
      && (id in s.watched <==> Claims(row, p) && EngineLive(row, p))
      && (EngineLive(row, p) && row'.Terminal() ==> row.Reclaimable() && row.PastDeadline(now))
      && (row'.status == Failed ==> !p.reportComplete)
      && (Owned(row, p, now) && id !in s.watched && p.finishCommits ==>
            && row'.Settled()
            && (row'.status == Completed <==> p.reportComplete)
            && (row'.recovery == Some(RunStore.ReapedCompletedDegraded)
                <==> row'.status == Completed && p.enrichmentRaises)
            && (row'.recovery == Some(RunStore.ReapedAbandoned)
                <==> row'.status == Failed && Claims(row, p) && row.PastDeadline(now)))
      && (Owned(row, p, now) && !p.finishCommits ==> row' == row.(recovery := Some(Claimed)))
  {
    PassReconcilesEachRow(active, rows, probe, now, |active|, id);
    assert active[..|active|] == active;
    assert rows[id].status == Running;
  }

  /** The counters account for every listed row exactly once, and one watcher is spawned per
      re-attached run. */
  lemma {:induction false} PassAccountsForEveryRow(active: seq<RunId>, rows: map<RunId, Row>, probe: RunId -> Probe,
                                                   now: int, n: nat)
    requires Listing(active, rows) && n <= |active|
    ensures var s := Pass(active, rows, probe, now, n); var c := s.counters;
      && c.checked == |active|
      && c.reattached + c.reapedCompleted + c.reapedFailed + c.reapedAbandoned + c.skippedClaimed == n
      && |s.watched| == c.reattached
  {
    if n > 0 {
      PassAccountsForEveryRow(active, rows, probe, now, n - 1);
    }
  }

  function CounterOf(c: Counters, v: Verdict): nat {
    match v
    case SkippedClaimed => c.skippedClaimed
    case ReattachedLive => c.reattached
    case CompletedFromReport => c.reapedCompleted
    case AbandonedRun => c.reapedAbandoned
    case CrashedEngine => c.reapedFailed
  }

  /** The verdicts that the listed rows get from their own state and probes. */
  function Verdicts(active: seq<RunId>, rows: map<RunId, Row>, probe: RunId -> Probe, now: int, n: nat)
    : (vs: seq<Verdict>)
    requires Listing(active, rows) && n <= |active|
    ensures |vs| == n
  {
    seq(n, i requires 0 <= i < n => VerdictOn(rows[active[i]], probe(active[i]), now))
  }

  lemma BumpCounts(c: Counters, here: Verdict, v: Verdict)
    ensures CounterOf(Bump(c, here), v) == CounterOf(c, v) + if here == v then 1 else 0
  {
  }

  lemma VerdictsSnoc(active: seq<RunId>, rows: map<RunId, Row>, probe: RunId -> Probe, now: int, k: nat)
    requires Listing(active, rows) && k < |active|
    ensures Verdicts(active, rows, probe, now, k + 1)
      == Verdicts(active, rows, probe, now, k) + [VerdictOn(rows[active[k]], probe(active[k]), now)]
  {
    hide VerdictOn;
  }

  lemma NextCounters(active: seq<RunId>, rows: map<RunId, Row>, probe: RunId -> Probe, now: int, k: nat)
    requires Listing(active, rows) && k < |active|
    ensures Pass(active, rows, probe, now, k + 1).counters
      == Bump(Pass(active, rows, probe, now, k).counters, VerdictOn(rows[active[k]], probe(active[k]), now))
  {
    hide Reconciled, VerdictOn, Bump;
    PassReconcilesEachRow(active, rows, probe, now, k, active[k]);
    assert active[k] !in active[..k];
  }

  /** Each counter is the number of listed rows that get its verdict. */
  lemma {:induction false} CountersCountVerdicts(active: seq<RunId>, rows: map<RunId, Row>, probe: RunId -> Probe,
                                                 now: int, n: nat, v: Verdict)
    requires Listing(active, rows) && n <= |active|
    ensures CounterOf(Pass(active, rows, probe, now, n).counters, v)
      == multiset(Verdicts(active, rows, probe, now, n))[v]
  {
    if n > 0 {
      hide Pass, Verdicts, VerdictOn, Bump, CounterOf;
      var k := n - 1;
      CountersCountVerdicts(active, rows, probe, now, k, v);
      VerdictsSnoc(active, rows, probe, now, k);
      NextCounters(active, rows, probe, now, k);
      BumpCounts(Pass(active, rows, probe, now, k).counters, VerdictOn(rows[active[k]], probe(active[k]), now), v);
    }
  }

  // ----- the pass in the fields of row and probe

  ghost predicate Late(row: Row, now: int) { row.timeoutAt.Some? && row.timeoutAt.value < now }

  /** Won by the claim: no recovery state, and the claim commits. */
  ghost predicate WonFresh(row: Row, p: Probe) { row.recovery == None && p.claimCommits }

  /** Won back from a finalizer that is past the deadline. */
  ghost predicate WonBack(row: Row, p: Probe, now: int) {
    row.recovery == Some(Finalizing) && Late(row, now) && p.reclaimCommits
  }

  /** The recorded process exists and is this run's engine. */
  ghost predicate EngineRuns(row: Row, p: Probe) {
    exists pid | pid > 0 :: row.enginePid == Some(pid) && p.pidAlive && p.argvMatches
  }

  ghost predicate Reattaches(row: Row, p: Probe) { WonFresh(row, p) && EngineRuns(row, p) }

  /** Owned, and the engine is dead, or another program's process, or the row was won back. */
  ghost predicate Settles(row: Row, p: Probe, now: int) {
    (WonFresh(row, p) && !EngineRuns(row, p)) || WonBack(row, p, now)
  }

  /** The verdict that the fields of a running row and its probe call for. */
  ghost predicate CallsFor(row: Row, p: Probe, now: int, v: Verdict) {
    match v
    case SkippedClaimed => !WonFresh(row, p) && !WonBack(row, p, now)
    case ReattachedLive => Reattaches(row, p)
    case CompletedFromReport => Settles(row, p, now) && p.reportComplete
    case AbandonedRun => Settles(row, p, now) && !p.reportComplete && WonFresh(row, p) && Late(row, now)
    case CrashedEngine => Settles(row, p, now) && !p.reportComplete && !(WonFresh(row, p) && Late(row, now))
  }

  lemma VerdictByFields(row: Row, p: Probe, now: int, v: Verdict)
    requires row.status == RunStore.Running
    ensures VerdictOn(row, p, now) == v <==> CallsFor(row, p, now, v)
  {
    if row.enginePid.Some? {
      var pid := row.enginePid.value;
      assert pid > 0 && p.pidAlive && p.argvMatches ==> EngineRuns(row, p);
    }
  }

  /** The row that the fields of a running row and its probe call for: the engine's pid is cleared, and the
      deadline and the agent stay. */
  lemma RowByFields(row: Row, p: Probe, now: int)
    requires row.status == RunStore.Running
    ensures var row' := Reconciled(row, p, now);
      && (!WonFresh(row, p) && !WonBack(row, p, now) ==> row' == row)
      && (Reattaches(row, p) || (Settles(row, p, now) && !p.finishCommits) ==>
            row' == Row(RunStore.Running, Some(Claimed), row.enginePid, row.timeoutAt, row.agentId))
      && (Settles(row, p, now) && p.finishCommits && p.reportComplete ==>
            row' == Row(Completed, Some(if p.enrichmentRaises then ReapedCompletedDegraded else ReapedCompleted),
                        None, row.timeoutAt, row.agentId))
      && (Settles(row, p, now) && p.finishCommits && !p.reportComplete ==>
            row' == Row(Failed, Some(if WonFresh(row, p) && Late(row, now) then ReapedAbandoned else ReapedFailed),
                        None, row.timeoutAt, row.agentId))
  {
    VerdictByFields(row, p, now, VerdictOn(row, p, now));
  }

  /** The pass, read off the fields alone. A listed row is watched exactly when it was unclaimed, its claim commits,
      it has a positive pid, that process is alive and its arguments match. A row owned otherwise, its process dead
      or another program's, ends completed with a complete report, else abandoned past its deadline, else failed. */
  lemma PassByFields(active: seq<RunId>, rows: map<RunId, Row>, probe: RunId -> Probe, now: int, id: RunId)
    requires Listing(active, rows) && id in active
    ensures var s := Pass(active, rows, probe, now, |active|);
      var row, row', p := rows[id], s.rows[id], probe(id);
      && (id in s.watched <==> Reattaches(row, p))
      && (!WonFresh(row, p) && !WonBack(row, p, now) ==> row' == row)
      && (Reattaches(row, p) || (Settles(row, p, now) && !p.finishCommits) ==>
            row' == Row(RunStore.Running, Some(Claimed), row.enginePid, row.timeoutAt, row.agentId))
      && (Settles(row, p, now) && p.finishCommits && p.reportComplete ==>
            row' == Row(Completed, Some(if p.enrichmentRaises then ReapedCompletedDegraded else ReapedCompleted),
                        None, row.timeoutAt, row.agentId))
      && (Settles(row, p, now) && p.finishCommits && !p.reportComplete ==>
            row' == Row(Failed, Some(if WonFresh(row, p) && Late(row, now) then ReapedAbandoned else ReapedFailed),
                        None, row.timeoutAt, row.agentId))
  {
    PassReconcilesEachRow(active, rows, probe, now, |active|, id);
    assert active[..|active|] == active && rows[id].status == RunStore.Running;
    hide Reattaches, Settles, WonFresh, WonBack, Late, Reconciled, VerdictOn, Pass;
    VerdictByFields(rows[id], probe(id), now, ReattachedLive);
    RowByFields(rows[id], probe(id), now);
  }

  /** The listed rows below `n` whose fields call for `v`. */
  ghost function RowsCalling(active: seq<RunId>, rows: map<RunId, Row>, probe: RunId -> Probe, now: int, n: nat,
                             v: Verdict): set<nat>
    requires Listing(active, rows) && n <= |active|
  {
    set i: nat | i < n && CallsFor(rows[active[i]], probe(active[i]), now, v)
  }

  lemma RowsCallingSnoc(active: seq<RunId>, rows: map<RunId, Row>, probe: RunId -> Probe, now: int, k: nat, v: Verdict)
    requires Listing(active, rows) && k < |active|
    ensures |RowsCalling(active, rows, probe, now, k + 1, v)|
      == |RowsCalling(active, rows, probe, now, k, v)|
         + if CallsFor(rows[active[k]], probe(active[k]), now, v) then 1 else 0
  {
    hide CallsFor;
    var before, after := RowsCalling(active, rows, probe, now, k, v), RowsCalling(active, rows, probe, now, k + 1, v);
    assert forall i: nat | i != k :: i in after <==> i in before;
    if CallsFor(rows[active[k]], probe(active[k]), now, v) {
      assert after == before + {k};
    } else {
      assert after == before;
    }
  }

  lemma NoneCounted(active: seq<RunId>, rows: map<RunId, Row>, probe: RunId -> Probe, now: int, v: Verdict)
    requires Listing(active, rows)
    ensures CounterOf(Pass(active, rows, probe, now, 0).counters, v) == 0
    ensures RowsCalling(active, rows, probe, now, 0, v) == {}
  {
  }

  lemma {:induction false} CountersCountRows(active: seq<RunId>, rows: map<RunId, Row>, probe: RunId -> Probe,
                                             now: int, n: nat, v: Verdict)
    requires Listing(active, rows) && n <= |active|
    ensures CounterOf(Pass(active, rows, probe, now, n).counters, v) == |RowsCalling(active, rows, probe, now, n, v)|
  {
    hide Pass, VerdictOn, Bump, CounterOf, CallsFor, RowsCalling;
    if n == 0 {
      NoneCounted(active, rows, probe, now, v);
    } else {
      var k := n - 1;
      CountersCountRows(active, rows, probe, now, k, v);
      NextCounters(active, rows, probe, now, k);
      BumpCounts(Pass(active, rows, probe, now, k).counters, VerdictOn(rows[active[k]], probe(active[k]), now), v);
      VerdictByFields(rows[active[k]], probe(active[k]), now, v);
      RowsCallingSnoc(active, rows, probe, now, k, v);
    }
  }

  /** Every counter is the number of listed rows whose fields call for it. */
  lemma CountersByFields(active: seq<RunId>, rows: map<RunId, Row>, probe: RunId -> Probe, now: int)
    requires Listing(active, rows)
    ensures var c, n := Pass(active, rows, probe, now, |active|).counters, |active|;
      && c.checked == n
      && c.reattached == |RowsCalling(active, rows, probe, now, n, ReattachedLive)|
      && c.reapedCompleted == |RowsCalling(active, rows, probe, now, n, CompletedFromReport)|
      && c.reapedAbandoned == |RowsCalling(active, rows, probe, now, n, AbandonedRun)|
      && c.reapedFailed == |RowsCalling(active, rows, probe, now, n, CrashedEngine)|
      && c.skippedClaimed == |RowsCalling(active, rows, probe, now, n, SkippedClaimed)|
  {
    hide Pass, RowsCalling;
    PassAccountsForEveryRow(active, rows, probe, now, |active|);
    CountersCountRows(active, rows, probe, now, |active|, ReattachedLive);
    CountersCountRows(active, rows, probe, now, |active|, CompletedFromReport);
    CountersCountRows(active, rows, probe, now, |active|, AbandonedRun);
    CountersCountRows(active, rows, probe, now, |active|, CrashedEngine);
    CountersCountRows(active, rows, probe, now, |active|, SkippedClaimed);
  }

  lemma {:induction false} UnownedRowsAreSkipped(active: seq<RunId>, rows: map<RunId, Row>, probe: RunId -> Probe,
                                                 now: int, n: nat)
    requires Listing(active, rows) && n <= |active|
    requires forall i | 0 <= i < |active| :: !Owned(rows[active[i]], probe(active[i]), now)
    ensures Pass(active, rows, probe, now, n) == Progress(rows, Counters(|active|, 0, 0, 0, 0, n), [])
  {
    if n > 0 {
      UnownedRowsAreSkipped(active, rows, probe, now, n - 1);
      assert rows[active[n - 1] := rows[active[n - 1]]] == rows;
    }
  }

  lemma ReconciledRowIsUnowned(row: Row, p: Probe, now: int, p': Probe)
    requires p.claimCommits && p.reclaimCommits
    ensures !Owned(Reconciled(row, p, now), p', now)
  {
    if Owned(row, p, now) {
      var claimed := row.(recovery := Some(Claimed));
      var settled := Settle(claimed, VerdictOn(row, p, now), p);
      assert settled.recovery.Some? && settled.recovery != Some(Finalizing);
    }
  }

  /** A second boot at the same moment, after claims that committed, finds nothing left to reconcile: whatever
      the operating system and the database say the second time, it skips every row and leaves the table as
      it is, failed finishing commits included. */
  lemma SecondPassSkipsEverything(active: seq<RunId>, rows: map<RunId, Row>, probe: RunId -> Probe, now: int,
                                  again: seq<RunId>, probe': RunId -> Probe)
    requires Listing(active, rows)
    requires Listing(again, Pass(active, rows, probe, now, |active|).rows)
    requires forall i | 0 <= i < |again| :: again[i] in active
    requires forall i | 0 <= i < |active| :: probe(active[i]).claimCommits && probe(active[i]).reclaimCommits
    ensures var rows' := Pass(active, rows, probe, now, |active|).rows;
      Pass(again, rows', probe', now, |again|) == Progress(rows', Counters(|again|, 0, 0, 0, 0, |again|), [])
  {
    var rows' := Pass(active, rows, probe, now, |active|).rows;
    forall i | 0 <= i < |again| ensures !Owned(rows'[again[i]], probe'(again[i]), now) {
      PassReconcilesEachRow(active, rows, probe, now, |active|, again[i]);
      assert active[..|active|] == active;
      ReconciledRowIsUnowned(rows[again[i]], probe(again[i]), now, probe'(again[i]));
    }
    UnownedRowsAreSkipped(again, rows', probe', now, |again|);
  }

  // ----- the two reapers

  /** What one reaper lists: the running rows of its own process-id namespace, launched by agents or not. */
  ghost predicate ScopeListing(active: seq<RunId>, rows: map<RunId, Row>, byAgent: bool) {
    && Listing(active, rows)
    && forall id :: id in active <==> id in rows && rows[id].status == Running && rows[id].agentId.Some? == byAgent
  }

  lemma ReconciledKeepsAgent(row: Row, p: Probe, now: int)
    ensures Reconciled(row, p, now).agentId == row.agentId
  {
  }

  /** The main reaper and the gateway's never meet: a pass of one leaves every row of the other's scope as it
      is, so what the other lists and does is the same before and after. Together they list every running row. */
  lemma ScopesDoNotMeet(active: seq<RunId>, others: seq<RunId>, rows: map<RunId, Row>, probe: RunId -> Probe, now: int,
                        byAgent: bool, id: RunId)
    requires ScopeListing(active, rows, byAgent) && ScopeListing(others, rows, !byAgent) && id in rows
    ensures rows[id].status == Running <==> id in active || id in others
    ensures id !in active || id !in others
    ensures var rows' := Pass(active, rows, probe, now, |active|).rows;
      && rows'[id].agentId == rows[id].agentId
      && (id in others ==> rows'[id] == rows[id])
  {
    PassReconcilesEachRow(active, rows, probe, now, |active|, id);
    assert active[..|active|] == active;
    ReconciledKeepsAgent(rows[id], probe(id), now);
  }
}
