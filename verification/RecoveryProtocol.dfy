/** One scan_history row under concurrency: any number of booting reapers, live finalizers and
    watcher threads, interleaved one database commit at a time, with crashes and failed commits.

    An `Event` names the actor that moves and everything the environment decides for it; an event
    whose actor is not at the right place changes nothing, so every event sequence is a run. */
module RecoveryProtocol {
  import opened Collections
  import opened Wrappers
  import opened RunStore
  import Recovery

  datatype Actor =
    | Booting
    | Saw(pastDeadline: bool)                         // listed the row as running
    | LostClaim(pastDeadline: bool)
    | Owner(reclaimed: bool, pastDeadline: bool, launch: nat)  // won claim_for_recovery or reclaim_finalizing
    | Watching(launch: nat)
    | Finishing(outcome: Status, verdict: RecoveryState, launch: nat)
    | LiveRunning                                     // the worker that launched the engine
    | LiveFinalizing
    | Gone
  {
    /** Entitled to finish the row on behalf of recovery. */
    predicate HoldsGrant() { Owner? || Watching? || Finishing? }
    predicate HoldsGrantOf(n: nat) { HoldsGrant() && launch == n }
    predicate MayAttach() { Owner? && !reclaimed }
  }

  datatype Event =
    | RecordStart(enginePid: Option<int>, now: int, timeout: int)
    | UpdatePid(i: nat, enginePid: Option<int>)
    | MarkFinalizing(i: nat, commits: bool)
    | FinalizeLive(i: nat, commits: bool, stopped: bool)
    | Boot
    | List(i: nat, now: int)
    | Claim(i: nat, commits: bool)
    | Reclaim(i: nat, commits: bool)
    | Attach(i: nat)
    | Decide(i: nat, reportComplete: bool, enrichmentRaises: bool)
    | EngineExit(i: nat, reportComplete: bool, enrichmentRaises: bool)
    | Commit(i: nat, commits: bool)
    | Crash(i: nat)

  /** A grant belongs to the launch at which it was won, `launch` being the number of record_starts then.
      `claims` to `gone` count since the last record_start: `overMarks` the marks that overwrote a claim, `own`
      and `stale` the recovery commits with a grant of this launch or of an earlier one, `gone` the grants of
      this launch given up without a commit. The rest count for ever, `again` the grants made when the launch
      had one already. */
  datatype System = System(
    row: Option<Row>, actors: seq<Actor>,
    claims: nat, reclaims: nat, overMarks: nat, own: nat, stale: nat, gone: nat,
    starts: nat, allClaims: nat, grants: nat, again: nat, allOverMarks: nat,
    watchers: nat, finishes: nat, dropped: nat)
  {
    predicate Claimable() { row.Some? && row.value.Claimable() }
    predicate Reclaimable() { row.Some? && row.value.Reclaimable() }
    predicate Contestable() { Claimable() || Reclaimable() }
    predicate ClaimHeld() { Running() && row.value.recovery == Some(Claimed) }
    predicate Running() { row.Some? && row.value.status == RunStore.Running }
    predicate At(i: nat, a: Actor) { i < |actors| && actors[i] == a }
    predicate Sees(i: nat) { i < |actors| && actors[i].Saw? }
    function Move(i: nat, a: Actor): System
      requires i < |actors|
    {
      this.(actors := actors[i := a])
    }
    function GiveUp(i: nat): System
      requires i < |actors|
    {
      this.(actors := actors[i := Gone],
        dropped := dropped + (if actors[i].HoldsGrant() then 1 else 0),
        gone := gone + if actors[i].HoldsGrantOf(starts) then 1 else 0)
    }
    function Granted(): System
      requires row.Some?
    {
      this.(row := Some(row.value.(recovery := Some(Claimed))), grants := grants + 1,
        again := again + if claims + reclaims > 0 then 1 else 0)
    }
  }

  const INIT := System(None, [], 0, 0, 0, 0, 0, 0, 0, 0, 0, 0, 0, 0, 0, 0)

  function Ingest(complete: bool, raises: bool, otherwise: RecoveryState, launch: nat): Actor {
    if complete then Finishing(Completed, if raises then ReapedCompletedDegraded else ReapedCompleted, launch)
    else Finishing(Failed, otherwise, launch)
  }

  function Apply(s: System, e: Event): System {
    match e
    case RecordStart(pid, now, timeout) =>
      s.(row := Some(Launched(pid, now, timeout, None)), actors := s.actors + [LiveRunning],
         claims := 0, reclaims := 0, overMarks := 0, own := 0, stale := 0, gone := 0, starts := s.starts + 1)
    case Boot => s.(actors := s.actors + [Booting])
    case _ => if e.i < |s.actors| then Move(s, e) else s
  }

  function Move(s: System, e: Event): System
    requires !e.RecordStart? && !e.Boot? && e.i < |s.actors|
  {
    var a := s.actors[e.i];
    match e
    case UpdatePid(i, pid) =>
      if a.LiveRunning? && s.row.Some? then s.(row := Some(s.row.value.(enginePid := pid))) else s
    case MarkFinalizing(i, commits) =>
      if !a.LiveRunning? then s
      else if commits && s.Running() then
        var over := if s.ClaimHeld() then 1 else 0;
        s.Move(i, LiveFinalizing).(row := Some(s.row.value.Mark()),
          overMarks := s.overMarks + over, allOverMarks := s.allOverMarks + over)
      else s.Move(i, LiveFinalizing)
    case FinalizeLive(i, commits, stopped) =>
      if !a.LiveRunning? && !a.LiveFinalizing? then s
      else if commits && s.row.Some? then
        var outcome := if a.LiveFinalizing? then Completed else if stopped then Stopped else Failed;
        s.Move(i, Gone).(row := Some(s.row.value.FinalizeLive(outcome)))
      else s.Move(i, Gone)
    case List(i, now) =>
      if !a.Booting? then s
      else s.Move(i, if s.Running() then Saw(s.row.value.PastDeadline(now)) else Gone)
    case Claim(i, commits) =>
      if !a.Saw? then s
      else if commits && s.Claimable() then
        s.Granted().Move(i, Owner(false, a.pastDeadline, s.starts)).(
          claims := s.claims + 1, allClaims := s.allClaims + 1)
      else s.Move(i, LostClaim(a.pastDeadline))
    case Reclaim(i, commits) =>
      if !a.LostClaim? then s
      else if a.pastDeadline && commits && s.Reclaimable() then
        s.Granted().Move(i, Owner(true, a.pastDeadline, s.starts)).(reclaims := s.reclaims + 1)
      else s.Move(i, Gone)
    case Attach(i) =>
      if a.MayAttach() then
        s.Move(i, Gone).(actors := s.actors[i := Gone] + [Watching(a.launch)], watchers := s.watchers + 1)
      else s
    case Decide(i, complete, raises) =>
      if a.Owner? then
        var otherwise := if a.pastDeadline && !a.reclaimed then ReapedAbandoned else ReapedFailed;
        s.Move(i, Ingest(complete, raises, otherwise, a.launch))
      else s
    case EngineExit(i, complete, raises) =>
      if a.Watching? then s.Move(i, Ingest(complete, raises, Reattached, a.launch)) else s
    case Commit(i, commits) =>
      if !a.Finishing? then s
      else if commits && s.row.Some? then
        s.Move(i, Gone).(row := Some(s.row.value.Finish(a.outcome, Some(a.verdict))), finishes := s.finishes + 1,
          own := s.own + (if a.launch == s.starts then 1 else 0),
          stale := s.stale + if a.launch == s.starts then 0 else 1)
      else s.GiveUp(i)
    case Crash(i) => s.GiveUp(i)
  }

  function After(s: System, es: seq<Event>): System {
    if es == [] then s else Apply(After(s, es[..|es| - 1]), es[|es| - 1])
  }

  // ----- the steps as transactions on the table

  ghost predicate Holds(rows: map<RunId, Row>, id: RunId, row: Option<Row>) {
    row == if id in rows then Some(rows[id]) else None
  }

  /** The database side of a step: an event of a run `id` carried out on the table has the row effect that the
      protocol says, and no other row changes. */
  method Transact(history: ScanHistory, id: RunId, s: System, e: Event)
    requires Holds(history.rows, id, s.row)
    modifies history
    ensures Holds(history.rows, id, Apply(s, e).row)
    ensures history.rows - {id} == old(history.rows) - {id}
  {
    hide Holders, Attachers;
    if e.RecordStart? {
      history.RecordStart(id, e.enginePid, e.now, e.timeout, None);
    } else if !e.Boot? && e.i < |s.actors| {
      var a := s.actors[e.i];
      if e.UpdatePid? && a.LiveRunning? {
        history.UpdatePid(id, e.enginePid, true);
      } else if e.MarkFinalizing? && a.LiveRunning? {
        history.MarkFinalizing(id, e.commits);
      } else if e.FinalizeLive? && (a.LiveRunning? || a.LiveFinalizing?) {
        var outcome := if a.LiveFinalizing? then Completed else if e.stopped then Stopped else Failed;
        history.FinalizeLive(id, outcome, e.commits);
      } else if e.Claim? && a.Saw? {
        var _ := history.ClaimForRecovery(id, e.commits);
      } else if e.Reclaim? && a.LostClaim? && a.pastDeadline {
        var _ := history.ReclaimFinalizing(id, e.commits);
      } else if e.Commit? && a.Finishing? {
        history.RecordFinish(id, a.outcome, Some(a.verdict), e.commits);
      }
    }
  }

  // ----- counting actors

  function Holders(actors: seq<Actor>): nat {
    if actors == [] then 0
    else Holders(actors[..|actors| - 1]) + if actors[|actors| - 1].HoldsGrant() then 1 else 0
  }

  function Attachers(actors: seq<Actor>): nat {
    if actors == [] then 0
    else Attachers(actors[..|actors| - 1]) + if actors[|actors| - 1].MayAttach() then 1 else 0
  }

  /** The actors that hold a grant of launch `n`. */
  function HoldersOf(actors: seq<Actor>, n: nat): nat {
    if actors == [] then 0
    else HoldersOf(actors[..|actors| - 1], n) + if actors[|actors| - 1].HoldsGrantOf(n) then 1 else 0
  }

  lemma {:induction false} CountMovedOf(actors: seq<Actor>, i: nat, a: Actor, n: nat)
    requires i < |actors|
    ensures HoldersOf(actors[i := a], n) == HoldersOf(actors, n)
      + (if a.HoldsGrantOf(n) then 1 else 0) - if actors[i].HoldsGrantOf(n) then 1 else 0
  {
    hide Actor.HoldsGrantOf;
    var k := |actors| - 1;
    if i == k {
      assert actors[i := a][..k] == actors[..k];
    } else {
      CountMovedOf(actors[..k], i, a, n);
      assert actors[i := a][..k] == actors[..k][i := a];
    }
  }

  lemma CountJoinedOf(actors: seq<Actor>, a: Actor, n: nat)
    ensures HoldersOf(actors + [a], n) == HoldersOf(actors, n) + if a.HoldsGrantOf(n) then 1 else 0
  {
    assert (actors + [a])[..|actors|] == actors;
  }

  lemma {:induction false} NoHoldersOf(actors: seq<Actor>, n: nat)
    requires forall i | 0 <= i < |actors| :: !actors[i].HoldsGrantOf(n)
    ensures HoldersOf(actors, n) == 0
  {
    if actors != [] {
      NoHoldersOf(actors[..|actors| - 1], n);
    }
  }

  lemma {:induction false} CountMoved(actors: seq<Actor>, i: nat, a: Actor)
    requires i < |actors|
    ensures Holders(actors[i := a]) == Holders(actors)
      + (if a.HoldsGrant() then 1 else 0) - if actors[i].HoldsGrant() then 1 else 0
    ensures Attachers(actors[i := a]) == Attachers(actors)
      + (if a.MayAttach() then 1 else 0) - if actors[i].MayAttach() then 1 else 0
  {
    var n := |actors| - 1;
    if i == n {
      assert actors[i := a][..n] == actors[..n];
    } else {
      CountMoved(actors[..n], i, a);
      assert actors[i := a][..n] == actors[..n][i := a];
    }
  }

  lemma CountJoined(actors: seq<Actor>, a: Actor)
    ensures Holders(actors + [a]) == Holders(actors) + if a.HoldsGrant() then 1 else 0
    ensures Attachers(actors + [a]) == Attachers(actors) + if a.MayAttach() then 1 else 0
  {
    assert (actors + [a])[..|actors|] == actors;
  }

  // ----- safety over every run

  /** Grants and actors: every grant is still held, or was used to finish the row, or was dropped. */
  ghost predicate ActorInv(s: System) {
    && (forall i | 0 <= i < |s.actors| :: s.actors[i].Finishing? ==> s.actors[i].outcome != RunStore.Running)
    && s.grants == s.finishes + s.dropped + Holders(s.actors)
    && s.watchers + Attachers(s.actors) <= s.allClaims
  }

  /** Grants and the row. While the row runs, the grants since its launch are exactly the marks that
      overwrote a claim, and one more when the row is claimed now. */
  ghost predicate RowInv(s: System) {
    && (s.Running() ==> s.Contestable() || s.ClaimHeld())
    && (s.Running() ==> s.claims + s.reclaims == s.overMarks + if s.ClaimHeld() then 1 else 0)
    && (s.Claimable() ==> s.claims + s.reclaims == 0)
    && s.claims <= 1
    && s.claims + s.reclaims + (if s.Contestable() then 1 else 0) <= 1 + s.overMarks
    && s.allClaims + (if s.Claimable() then 1 else 0) <= s.starts
    && s.grants + (if s.Contestable() then 1 else 0) <= s.starts + s.allOverMarks
    && s.grants + (if s.Contestable() && s.claims + s.reclaims == 0 then 1 else 0) <= s.starts + s.again
    && (s.claims + s.reclaims > 0 || s.again > 0 ==> s.grants > s.again)
  }

  ghost predicate Inv(s: System) { ActorInv(s) && RowInv(s) }

  lemma LiveStepKeepsInv(s: System, e: Event)
    requires ActorInv(s) && (e.UpdatePid? || e.MarkFinalizing? || e.FinalizeLive?) && e.i < |s.actors|
    ensures ActorInv(Move(s, e))
  {
    CountMoved(s.actors, e.i, Gone);
    CountMoved(s.actors, e.i, LiveFinalizing);
  }

  lemma ContestStepKeepsInv(s: System, e: Event)
    requires ActorInv(s) && (e.List? || e.Claim? || e.Reclaim?) && e.i < |s.actors|
    ensures ActorInv(Move(s, e))
  {
    var a := Move(s, e).actors[e.i];
    CountMoved(s.actors, e.i, a);
    assert Move(s, e).actors == s.actors[e.i := a];
  }

  lemma AttachKeepsInv(s: System, i: nat)
    requires ActorInv(s) && i < |s.actors|
    ensures ActorInv(Move(s, Attach(i)))
  {
    if s.actors[i].MayAttach() {
      CountMoved(s.actors, i, Gone);
      CountJoined(s.actors[i := Gone], Watching(s.actors[i].launch));
    }
  }

  lemma VerdictStepKeepsInv(s: System, e: Event)
    requires ActorInv(s) && (e.Decide? || e.EngineExit? || e.Commit? || e.Crash?) && e.i < |s.actors|
    ensures ActorInv(Move(s, e))
  {
    var a := Move(s, e).actors[e.i];
    CountMoved(s.actors, e.i, a);
    assert Move(s, e).actors == s.actors[e.i := a];
  }

  lemma ActorStep(s: System, e: Event)
    requires ActorInv(s)
    ensures ActorInv(Apply(s, e))
  {
    if e.RecordStart? {
      CountJoined(s.actors, LiveRunning);
    } else if e.Boot? {
      CountJoined(s.actors, Booting);
    } else if e.i < |s.actors| {
      match e {
        case Attach(i) => AttachKeepsInv(s, i);
        case UpdatePid(_, _) => LiveStepKeepsInv(s, e);
        case MarkFinalizing(_, _) => LiveStepKeepsInv(s, e);
        case FinalizeLive(_, _, _) => LiveStepKeepsInv(s, e);
        case List(_, _) => ContestStepKeepsInv(s, e);
        case Claim(_, _) => ContestStepKeepsInv(s, e);
        case Reclaim(_, _) => ContestStepKeepsInv(s, e);
        case _ => VerdictStepKeepsInv(s, e);
      }
    }
  }

  /** No actor commits the row back to running: only a launch does. */
  lemma RowStep(s: System, e: Event)
    requires ActorInv(s) && RowInv(s)
    ensures RowInv(Apply(s, e))
  {
    hide Holders, Attachers;
    if !e.RecordStart? && !e.Boot? && e.i < |s.actors| {
      if e.Claim? || e.Reclaim? || e.MarkFinalizing? {
        RowContest(s, e);
      } else {
        RowRest(s, e);
      }
    }
  }

  lemma RowContest(s: System, e: Event)
    requires RowInv(s) && (e.Claim? || e.Reclaim? || e.MarkFinalizing?) && e.i < |s.actors|
    ensures RowInv(Move(s, e))
  {
  }

  lemma RowRest(s: System, e: Event)
    requires ActorInv(s) && RowInv(s) && !e.RecordStart? && !e.Boot? && e.i < |s.actors|
    requires !e.Claim? && !e.Reclaim? && !e.MarkFinalizing?
    ensures RowInv(Move(s, e))
  {
    hide Holders, Attachers;
  }

  lemma ApplyKeepsInv(s: System, e: Event)
    requires Inv(s)
    ensures Inv(Apply(s, e))
  {
    hide ActorInv, RowInv;
    ActorStep(s, e);
    RowStep(s, e);
  }

  lemma StartActors(s: System)
    requires s.actors == [] && s.grants == s.finishes == s.dropped == s.watchers == s.allClaims == 0
    ensures ActorInv(s)
  {
    assert Holders(s.actors) == Attachers(s.actors) == 0;
  }

  lemma StartRow(s: System)
    requires s.row == None && s.claims == s.reclaims == s.overMarks == s.starts == s.allClaims == 0
    requires s.grants == s.again == s.allOverMarks == 0
    ensures RowInv(s)
  {
  }

  lemma StartKeepsInv()
    ensures Inv(INIT)
  {
    hide ActorInv, RowInv, Holders, Attachers;
    StartActors(INIT);
    StartRow(INIT);
  }

  lemma {:induction false} EveryRunKeepsInv(es: seq<Event>)
    ensures Inv(After(INIT, es))
  {
    hide Inv, Apply;
    if es == [] {
      StartKeepsInv();
    } else {
      EveryRunKeepsInv(es[..|es| - 1]);
      ApplyKeepsInv(After(INIT, es[..|es| - 1]), es[|es| - 1]);
    }
  }

  /** In every interleaving: at most one successful claim per record_start; successful claims and
      reclaims together never exceed one plus the marks that overwrote a claim, and while the row runs
      they are exactly those marks, plus one when it is claimed; at most one watcher per record_start; and
      recovery finishes the row at most once per grant, so at most `starts + allOverMarks` times in all. */
  lemma NoDuplicateReconciliation(es: seq<Event>)
    ensures var s := After(INIT, es);
      && s.claims <= 1
      && s.claims + s.reclaims + (if s.Contestable() then 1 else 0) <= 1 + s.overMarks
      && (s.Running() ==> s.claims + s.reclaims == s.overMarks + if s.ClaimHeld() then 1 else 0)
      && s.watchers <= s.allClaims <= s.starts
      && s.finishes + s.dropped + Holders(s.actors) == s.grants <= s.starts + s.allOverMarks
  {
    EveryRunKeepsInv(es);
  }

  // ----- what the watcher counter counts

  ghost function WatchersIn(s: System): set<nat> { set i: nat | i < |s.actors| && s.actors[i].Watching? }

  /** A watcher appears only by attaching, one at a time, and is counted then. */
  lemma WatcherStep(s: System, e: Event)
    ensures var s' := Apply(s, e);
      if e.Attach? && e.i < |s.actors| && s.actors[e.i].MayAttach()
      then s'.watchers == s.watchers + 1 && WatchersIn(s') <= WatchersIn(s) + {|s.actors|}
      else s'.watchers == s.watchers && WatchersIn(s') <= WatchersIn(s)
  {
  }

  /** In every interleaving the watchers running are no more than those counted. */
  lemma {:induction false} WatchersAreCounted(es: seq<Event>)
    ensures |WatchersIn(After(INIT, es))| <= After(INIT, es).watchers
  {
    if es == [] {
      assert WatchersIn(INIT) == {};
    } else {
      hide Apply, WatchersIn;
      var s, e := After(INIT, es[..|es| - 1]), es[|es| - 1];
      WatchersAreCounted(es[..|es| - 1]);
      WatcherStep(s, e);
      SizeWith(WatchersIn(s), |s.actors|);
      if Apply(s, e).watchers > s.watchers {
        SubsetSize(WatchersIn(Apply(s, e)), WatchersIn(s) + {|s.actors|});
      } else {
        SubsetSize(WatchersIn(Apply(s, e)), WatchersIn(s));
      }
    }
  }

  // ----- building runs

  lemma Then(es: seq<Event>, s: System, e: Event) returns (es': seq<Event>, s': System)
    requires After(INIT, es) == s
    ensures After(INIT, es') == s' == Apply(s, e)
  {
    es', s' := es + [e], Apply(s, e);
    assert es'[..|es|] == es;
  }
}
