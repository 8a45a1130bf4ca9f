/** The durable half of a scan's life: one `scan_history` row per run, and the transitions
    that the launcher, the live finalizer and the reapers commit against it. */
module RunStore {
  import opened Wrappers

  type RunId = string

  datatype Status = Running | Completed | Failed | Stopped

  datatype RecoveryState =
    | Claimed
    | Finalizing
    | Reattached
    | ReapedCompleted
    | ReapedCompletedDegraded
    | ReapedFailed
    | ReapedAbandoned

  /** `recovery == None` is SQL NULL. Times are in seconds. */
  datatype Row = Row(
    status: Status,
    recovery: Option<RecoveryState>,
    enginePid: Option<int>,
    timeoutAt: Option<int>,
    agentId: Option<int>)
  {
    predicate Terminal() { status != Running }
    predicate Settled() { Terminal() && enginePid == None }
    predicate Claimable() { status == Running && recovery == None }
    predicate Reclaimable() { status == Running && recovery == Some(Finalizing) }
    predicate PastDeadline(now: int) { timeoutAt.Some? && timeoutAt.value < now }

    /** The row after `record_finish`; a None `verdict` leaves the recovery state alone. */
    function Finish(outcome: Status, verdict: Option<RecoveryState>): Row {
      this.(status := outcome, recovery := if verdict.Some? then verdict else recovery, enginePid := None)
    }

    /** The row after the live finalizer's own commit. */
    function FinalizeLive(outcome: Status): Row {
      this.(status := outcome, recovery := if recovery == Some(Finalizing) then None else recovery, enginePid := None)
    }

    /** The row after `mark_finalizing`: it asks for a running row, not for an unclaimed one. */
    function Mark(): Row {
      if status == Running then this.(recovery := Some(Finalizing)) else this
    }
  }

  /** A freshly launched run. A deadline exists only for a positive timeout. */
  function Launched(enginePid: Option<int>, now: int, timeout: int, agentId: Option<int>): Row {
    Row(Running, None, enginePid, if timeout > 0 then Some(now + timeout) else None, agentId)
  }

  /** The table. Each method is one transaction; `commits` is false when the database raises,
      and the transaction is then rolled back. */
  class ScanHistory {
    var rows: map<RunId, Row>

    constructor ()
      ensures rows == map[]
    {
      rows := map[];
    }

    method RecordStart(id: RunId, enginePid: Option<int>, now: int, timeout: int, agentId: Option<int>)
      modifies this
      ensures rows
        == old(rows)[id := Row(Running, None, enginePid, if timeout > 0 then Some(now + timeout) else None, agentId)]
      ensures rows[id].Claimable() && forall other | other != id :: other in rows <==> other in old(rows)
    {
      rows := rows[id := Launched(enginePid, now, timeout, agentId)];
    }

    /** Not conditional on the status: see `RunOutcomes.SettledUnlessPidReported`. */
    method UpdatePid(id: RunId, enginePid: Option<int>, commits: bool)
      modifies this
      ensures rows == if commits && id in old(rows)
                      then old(rows)[id := old(rows)[id].(enginePid := enginePid)] else old(rows)
      ensures id in rows && rows[id] != old(rows)[id] ==>
        && rows[id].Claimable() == old(rows)[id].Claimable()
        && (rows[id].Settled() <==> rows[id].Terminal() && enginePid == None)
    {
      if id in rows && commits {
        rows := rows[id := rows[id].(enginePid := enginePid)];
      }
    }

    method RecordFinish(id: RunId, outcome: Status, verdict: Option<RecoveryState>, commits: bool)
      modifies this
      ensures rows == if commits && id in old(rows)
                      then old(rows)[id := old(rows)[id].(
                        status := outcome,
                        recovery := if verdict.Some? then verdict else old(rows)[id].recovery,
                        enginePid := None)]
                      else old(rows)
      ensures commits && id in old(rows) && outcome != Running ==> rows[id].Settled()
    {
      if id in rows && commits {
        rows := rows[id := rows[id].Finish(outcome, verdict)];
      }
    }

    method FinalizeLive(id: RunId, outcome: Status, commits: bool)
      modifies this
      ensures rows == if commits && id in old(rows)
                      then old(rows)[id := old(rows)[id].(
                        status := outcome,
                        recovery := if old(rows)[id].recovery == Some(Finalizing) then None
                                    else old(rows)[id].recovery,
                        enginePid := None)]
                      else old(rows)
      ensures commits && id in old(rows) ==> rows[id].recovery != Some(Finalizing)
    {
      if id in rows && commits {
        rows := rows[id := rows[id].FinalizeLive(outcome)];
      }
    }

    /** One conditional UPDATE: the row count says whether this caller won. */
    method ClaimForRecovery(id: RunId, commits: bool) returns (won: bool)
      modifies this
      ensures won <==>
        commits && id in old(rows) && old(rows)[id].status == Running && old(rows)[id].recovery == None
      ensures rows == if won then old(rows)[id := old(rows)[id].(recovery := Some(Claimed))] else old(rows)
    {
      won := id in rows && rows[id].Claimable() && commits;
      if won {
        rows := rows[id := rows[id].(recovery := Some(Claimed))];
      }
    }

    method MarkFinalizing(id: RunId, commits: bool)
      modifies this
      ensures rows == if commits && id in old(rows)
                      then old(rows)[id := old(rows)[id].(
                        recovery := if old(rows)[id].status == Running then Some(Finalizing)
                                    else old(rows)[id].recovery)]
                      else old(rows)
    {
      if id in rows && rows[id].status == Running && commits {
        rows := rows[id := rows[id].(recovery := Some(Finalizing))];
      }
    }

    method ReclaimFinalizing(id: RunId, commits: bool) returns (won: bool)
      modifies this
      ensures won <==>
        commits && id in old(rows) && old(rows)[id].status == Running && old(rows)[id].recovery == Some(Finalizing)
      ensures rows == if won then old(rows)[id := old(rows)[id].(recovery := Some(Claimed))] else old(rows)
    {
      won := id in rows && rows[id].Reclaimable() && commits;
      if won {
        rows := rows[id := rows[id].(recovery := Some(Claimed))];
      }
    }
  }
}
