/** What becomes of the row over whole runs of the protocol: when exactly one reaper reconciles it, when it ends
    settled, when recovery and a live worker both finish it, and what an unconditional commit can undo. */
module RunOutcomes {
  import opened Wrappers
  import opened RunStore
  import opened RecoveryProtocol
  import opened RecoveryGrants
  import Recovery

  // ----- with no live finalizer, crash or failed commit

  predicate Quiet(e: Event) {
    match e
    case Claim(_, commits) => commits
    case Reclaim(_, commits) => commits
    case Commit(_, commits) => commits
    case _ => e.Boot? || e.List? || e.Attach? || e.Decide? || e.EngineExit?
  }

  /** A claimable row whose workers are gone: reapers may be booting, have seen it or have lost a claim. */
  ghost predicate Orphaned(s: System) {
    && s.Claimable()
    && forall i | 0 <= i < |s.actors| ::
         s.actors[i].Booting? || s.actors[i].Saw? || s.actors[i].LostClaim? || s.actors[i].Gone?
  }

  /** Since the orphaned state `s0`. */
  ghost predicate QuietInv(s: System, s0: System, saw: nat) {
    && saw < |s.actors|
    && s.row.Some?
    && !s.Reclaimable()
    && s.dropped == s0.dropped
    && s0.grants <= s.grants <= s0.grants + 1
    && s0.finishes <= s.finishes
    && s.finishes - s0.finishes + Holders(s.actors) == s.grants - s0.grants
    && (s.grants == s0.grants <==> s.Claimable())
    && (s.grants == s0.grants ==> s.actors[saw].Saw?)
    && (s.finishes == s0.finishes ==> s.Running())
    && (s.finishes == s0.finishes + 1 ==> s.row.value.Settled())
    && (forall i | 0 <= i < |s.actors| :: !s.actors[i].LiveRunning? && !s.actors[i].LiveFinalizing?
          && (s.actors[i].Finishing? ==> s.actors[i].outcome != RunStore.Running))
  }

  lemma QuietAttach(s: System, s0: System, saw: nat, i: nat)
    requires QuietInv(s, s0, saw) && i < |s.actors| && s.actors[i].MayAttach()
    ensures QuietInv(Apply(s, Attach(i)), s0, saw)
  {
    HolderCounts(s.actors, i);
    CountMoved(s.actors, i, Gone);
    CountJoined(s.actors[i := Gone], Watching(s.actors[i].launch));
  }

  lemma QuietContest(s: System, s0: System, saw: nat, e: Event)
    requires QuietInv(s, s0, saw) && Quiet(e) && (e.List? || e.Reclaim?) && e.i < |s.actors|
    ensures QuietInv(Apply(s, e), s0, saw)
  {
    var a := Move(s, e).actors[e.i];
    CountMoved(s.actors, e.i, a);
    assert s.actors[e.i := a] == Move(s, e).actors;
  }

  lemma QuietClaim(s: System, s0: System, saw: nat, i: nat)
    requires QuietInv(s, s0, saw) && i < |s.actors|
    ensures QuietInv(Apply(s, Claim(i, true)), s0, saw)
  {
    var a := Move(s, Claim(i, true)).actors[i];
    CountMoved(s.actors, i, a);
    assert s.actors[i := a] == Move(s, Claim(i, true)).actors;
  }

  lemma QuietVerdict(s: System, s0: System, saw: nat, e: Event)
    requires QuietInv(s, s0, saw) && (e.Decide? || e.EngineExit?) && e.i < |s.actors|
    ensures QuietInv(Apply(s, e), s0, saw)
  {
    hide Holders;
    if s.actors[e.i].HoldsGrant() {
      HolderCounts(s.actors, e.i);
      var a := Move(s, e).actors[e.i];
      CountMoved(s.actors, e.i, a);
      assert s.actors[e.i := a] == Move(s, e).actors;
    }
  }

  lemma QuietCommit(s: System, s0: System, saw: nat, i: nat)
    requires QuietInv(s, s0, saw) && i < |s.actors|
    ensures QuietInv(Apply(s, Commit(i, true)), s0, saw)
  {
    hide Holders;
    if s.actors[i].Finishing? {
      HolderCounts(s.actors, i);
      CountMoved(s.actors, i, Gone);
      assert s.actors[i := Gone] == Move(s, Commit(i, true)).actors;
    }
  }

  lemma QuietStep(s: System, s0: System, saw: nat, e: Event)
    requires QuietInv(s, s0, saw) && Quiet(e)
    ensures QuietInv(Apply(s, e), s0, saw)
  {
    if e.Boot? {
      CountJoined(s.actors, Booting);
    } else if e.i < |s.actors| {
      match e {
        case Attach(i) => if s.actors[i].MayAttach() { QuietAttach(s, s0, saw, i); }
        case List(_, _) => QuietContest(s, s0, saw, e);
        case Claim(i, _) => QuietClaim(s, s0, saw, i);
        case Reclaim(_, _) => QuietContest(s, s0, saw, e);
        case Commit(i, _) => QuietCommit(s, s0, saw, i);
        case _ => QuietVerdict(s, s0, saw, e);
      }
    }
  }

  lemma {:induction false} HolderCounts(actors: seq<Actor>, i: nat)
    requires i < |actors| && actors[i].HoldsGrant()
    ensures Holders(actors) > 0
  {
    if i < |actors| - 1 {
      HolderCounts(actors[..|actors| - 1], i);
    }
  }

  lemma {:induction false} NoHolders(actors: seq<Actor>)
    requires forall i | 0 <= i < |actors| :: !actors[i].HoldsGrant()
    ensures Holders(actors) == 0
  {
    if actors != [] {
      NoHolders(actors[..|actors| - 1]);
    }
  }

  lemma {:induction false} QuietRun(s: System, saw: nat, es: seq<Event>)
    requires Orphaned(s) && s.Sees(saw)
    requires forall e | e in es :: Quiet(e)
    ensures QuietInv(After(s, es), s, saw)
  {
    if es == [] {
      NoHolders(s.actors);
    } else {
      hide QuietInv, Quiet, Orphaned, Apply;
      assert es == es[..|es| - 1] + [es[|es| - 1]];
      QuietRun(s, saw, es[..|es| - 1]);
      QuietStep(After(s, es[..|es| - 1]), s, saw, es[|es| - 1]);
    }
  }

  /** With no live finalizer, of any number of reapers that see the row exactly one reconciles it: as soon as
      one of them has tried the claim, one more grant exists and never a second; and when every reaper and
      watcher is done, the row has been finished exactly once more and is settled. */
  lemma OrphanIsReconciledOnce(s: System, saw: nat, es: seq<Event>)
    requires Orphaned(s) && s.Sees(saw)
    requires forall e | e in es :: Quiet(e)
    ensures var s' := After(s, es);
      && s'.row.Some? && saw < |s'.actors|
      && s.grants <= s'.grants <= s.grants + 1
      && (!s'.actors[saw].Saw? ==> s'.grants == s.grants + 1)
      && ((forall i | 0 <= i < |s'.actors| :: s'.actors[i].Gone?)
          ==> s'.finishes == s.finishes + 1 && s'.row.value.Settled())
  {
    hide After, Quiet;
    QuietRun(s, saw, es);
    var s' := After(s, es);
    if forall i | 0 <= i < |s'.actors| :: s'.actors[i].Gone? {
      NoHolders(s'.actors);
    }
  }

  lemma {:induction false} AfterSplits(s: System, a: seq<Event>, b: seq<Event>)
    ensures After(s, a + b) == After(After(s, a), b)
  {
    hide Apply;
    if b == [] {
      assert a + b == a;
    } else {
      AfterSplits(s, a, b[..|b| - 1]);
      assert (a + b)[..|a + b| - 1] == a + b[..|b| - 1];
    }
  }

  /** The same over runs, whatever happened before: once the launching workers are gone and a reaper has seen the
      still claimable row, the rest of the run, without crash or failed commit, gives it to exactly one. */
  lemma ExactlyOneReaperReconciles(before: seq<Event>, saw: nat, es: seq<Event>)
    requires Orphaned(After(INIT, before)) && After(INIT, before).Sees(saw)
    requires forall e | e in es :: Quiet(e)
    ensures var s, s' := After(INIT, before), After(INIT, before + es);
      && s'.row.Some? && saw < |s'.actors|
      && s.grants <= s'.grants <= s.grants + 1
      && (!s'.actors[saw].Saw? ==> s'.grants == s.grants + 1)
      && ((forall i | 0 <= i < |s'.actors| :: s'.actors[i].Gone?)
          ==> s'.finishes == s.finishes + 1 && s'.row.value.Settled())
  {
    hide After, Orphaned, Quiet;
    AfterSplits(INIT, before, es);
    OrphanIsReconciledOnce(After(INIT, before), saw, es);
  }

  /** Such a state is reached: the launching worker crashes and two reapers boot. */
  lemma OrphanIsReached()
    ensures exists es :: Orphaned(After(INIT, es)) && After(INIT, es).Sees(1) && After(INIT, es).Sees(2)
  {
    hide Apply, After;
    var es, s := CrashedAndListed();
  }

  lemma CrashedAndListed() returns (es: seq<Event>, s: System)
    ensures After(INIT, es) == s
    ensures s == System(Some(Row(RunStore.Running, None, Some(7), Some(10), None)),
                        [Gone, Saw(false), Saw(true)],
                        0, 0, 0, 0, 0, 0, 1, 0, 0, 0, 0, 0, 0, 0)
  {
    es, s := Listed();
    es, s := Then(es, s, Crash(0));
    assert s.actors == [Gone, Saw(false), Saw(true)];
  }

  // ----- the sequential pass is one uninterrupted reaper

  /** Failing commits included: claim, reclaim, verdict and commit of one reaper, uninterrupted, are the pass. */
  lemma UninterruptedReaperIsThePass(s: System, i: nat, row: Row, p: Recovery.Probe, now: int)
    requires s.row == Some(row) && s.At(i, Saw(row.PastDeadline(now)))
    ensures var verdict := if Recovery.EngineLive(row, p) && row.Claimable() then Attach(i)
                           else Decide(i, p.reportComplete, p.enrichmentRaises);
      var s2 := Apply(Apply(s, Claim(i, p.claimCommits)), Reclaim(i, p.reclaimCommits));
      Apply(Apply(s2, verdict), Commit(i, p.finishCommits)).row == Some(Recovery.Reconciled(row, p, now))
  {
    ContestIsThePass(s, i, row, p, now);
    hide Recovery.EngineLive, Recovery.Claims, Recovery.Reclaims;
    if Recovery.Owned(row, p, now) {
      OwnerIsThePass(Apply(Apply(s, Claim(i, p.claimCommits)), Reclaim(i, p.reclaimCommits)), i, row, p, now);
    }
  }

  /** The two attempts to own the row. */
  lemma ContestIsThePass(s: System, i: nat, row: Row, p: Recovery.Probe, now: int)
    requires s.row == Some(row) && s.At(i, Saw(row.PastDeadline(now)))
    ensures var s2 := Apply(Apply(s, Claim(i, p.claimCommits)), Reclaim(i, p.reclaimCommits));
      if Recovery.Owned(row, p, now) then
        && s2.At(i, Owner(!row.Claimable(), row.PastDeadline(now), s2.starts))
        && s2.row == Some(row.(recovery := Some(Claimed)))
      else s2.At(i, Gone) && s2.row == Some(row)
  {
    var s1 := Apply(s, Claim(i, p.claimCommits));
    if Recovery.Claims(row, p) {
      assert s1.At(i, Owner(false, row.PastDeadline(now), s.starts));
    } else {
      assert s1.At(i, LostClaim(row.PastDeadline(now))) && s1.row == s.row;
    }
  }

  /** The verdict of the owner. */
  lemma OwnerIsThePass(s2: System, i: nat, row: Row, p: Recovery.Probe, now: int)
    requires Recovery.Owned(row, p, now) && s2.At(i, Owner(!row.Claimable(), row.PastDeadline(now), s2.starts))
    requires s2.row == Some(row.(recovery := Some(Claimed)))
    ensures var verdict := if Recovery.EngineLive(row, p) && row.Claimable() then Attach(i)
                           else Decide(i, p.reportComplete, p.enrichmentRaises);
      Apply(Apply(s2, verdict), Commit(i, p.finishCommits)).row == Some(Recovery.Reconciled(row, p, now))
  {
    hide Recovery.EngineLive;
  }

  lemma WatcherIsTheLoop(s: System, i: nat, row: Row, p: Recovery.Probe)
    requires s.row == Some(row) && i < |s.actors| && s.actors[i].Watching?
    ensures Apply(Apply(s, EngineExit(i, p.reportComplete, p.enrichmentRaises)), Commit(i, p.finishCommits)).row
      == Some(if p.finishCommits then Recovery.Exited(row, p) else row)
  {
    assert Apply(s, EngineExit(i, p.reportComplete, p.enrichmentRaises)).actors[i].Finishing?;
  }

  // ----- terminal rows

  lemma TerminalStep(s: System, e: Event)
    requires ActorInv(s) && s.row.Some? && s.row.value.Terminal() && !e.RecordStart?
    ensures Apply(s, e).row.Some? && Apply(s, e).row.value.Terminal()
    ensures Apply(s, e).row.value.enginePid != None ==>
      s.row.value.enginePid != None || (e.UpdatePid? && e.enginePid != None)
  {
  }

  lemma {:induction false} AfterKeepsActorInv(s: System, es: seq<Event>)
    requires ActorInv(s)
    ensures ActorInv(After(s, es))
  {
    if es != [] {
      hide ActorInv, Apply;
      AfterKeepsActorInv(s, es[..|es| - 1]);
      ActorStep(After(s, es[..|es| - 1]), es[|es| - 1]);
    }
  }

  /** Only a new launch revives a finished run: once terminal, the row stays so through every run of events
      without a record_start, and gets an engine pid back only from an update_pid. */
  lemma {:induction false} TerminalUntilRestarted(s: System, es: seq<Event>)
    requires ActorInv(s) && s.row.Some? && s.row.value.Terminal() && forall e | e in es :: !e.RecordStart?
    ensures var s' := After(s, es);
      && s'.row.Some? && s'.row.value.Terminal()
      && (s'.row.value.enginePid != None ==>
            s.row.value.enginePid != None || exists e :: e in es && e.UpdatePid? && e.enginePid != None)
  {
    if es != [] {
      hide ActorInv, Apply;
      var init, e := es[..|es| - 1], es[|es| - 1];
      assert es == init + [e];
      TerminalUntilRestarted(s, init);
      AfterKeepsActorInv(s, init);
      TerminalStep(After(s, init), e);
    }
  }

  // ----- with live finalizers, but no crash or failed commit

  predicate Uninterrupted(e: Event) {
    match e
    case MarkFinalizing(_, commits) => commits
    case FinalizeLive(_, commits, _) => commits
    case Claim(_, commits) => commits
    case Reclaim(_, commits) => commits
    case Commit(_, commits) => commits
    case _ => !e.Crash?
  }

  predicate Live(s: System, i: int) {
    0 <= i < |s.actors| && (s.actors[i].LiveRunning? || s.actors[i].LiveFinalizing?)
  }

  /** An unsettled row has a launching worker that is not done. */
  ghost predicate Attended(s: System) {
    && (s.starts > 0 ==> s.row.Some?)
    && (s.row.Some? && !s.row.value.Settled() ==> exists i :: Live(s, i))
  }

  lemma StaysLive(s: System, e: Event, i: int)
    requires Live(s, i) && Uninterrupted(e) && !(e.FinalizeLive? && e.i == i)
    ensures Live(Apply(s, e), i)
  {
  }

  lemma StaysSettled(s: System, e: Event)
    requires ActorInv(s) && Uninterrupted(e) && !e.RecordStart?
    requires s.row.None? || (s.row.value.Settled() && !(e.UpdatePid? && Live(s, e.i)))
    ensures var row := Apply(s, e).row; (s.row.None? <==> row.None?) && (row.None? || row.value.Settled())
  {
  }

  lemma LiveWorkerSettles(s: System, i: nat, stopped: bool)
    requires s.row.Some? && Live(s, i)
    ensures var row := Apply(s, FinalizeLive(i, true, stopped)).row; row.Some? && row.value.Settled()
  {
  }

  lemma UninterruptedStep(s: System, e: Event)
    requires ActorInv(s) && Attended(s) && Uninterrupted(e)
    ensures Attended(Apply(s, e))
  {
    var s' := Apply(s, e);
    if e.RecordStart? {
      assert Live(s', |s.actors|);
    } else {
      RowStays(s, e);
      hide Apply, ActorInv;
      if e.FinalizeLive? && Live(s, e.i) {
        if s.row.Some? {
          LiveWorkerSettles(s, e.i, e.stopped);
        }
      } else if i :| Live(s, i) && !(e.FinalizeLive? && e.i == i) {
        StaysLive(s, e, i);
      } else {
        StaysSettled(s, e);
      }
    }
  }

  lemma RowStays(s: System, e: Event)
    requires !e.RecordStart?
    ensures (Apply(s, e).row.None? <==> s.row.None?) && Apply(s, e).starts == s.starts
  {
  }

  lemma NothingToAttend(s: System)
    requires s.row == None && s.starts == 0
    ensures Attended(s)
  {
  }

  lemma {:induction false} UninterruptedRun(es: seq<Event>)
    requires forall e | e in es :: Uninterrupted(e)
    ensures Attended(After(INIT, es)) && ActorInv(After(INIT, es))
  {
    hide Attended, Apply, ActorInv, RowInv, Uninterrupted;
    if es == [] {
      StartKeepsInv();
      NothingToAttend(INIT);
    } else {
      var init, e := es[..|es| - 1], es[|es| - 1];
      assert es == init + [e];
      UninterruptedRun(init);
      UninterruptedStep(After(INIT, init), e);
      ActorStep(After(INIT, init), e);
    }
  }

  /** Without crashes and failed commits, whatever live workers, reapers and watchers did in between: when
      all of them are done after at least one launch, the row is settled. */
  lemma EveryRunSettles(es: seq<Event>)
    requires forall e | e in es :: Uninterrupted(e)
    requires var s := After(INIT, es);
      s.starts > 0 && forall i | 0 <= i < |s.actors| :: s.actors[i].Gone?
    ensures After(INIT, es).row.Some? && After(INIT, es).row.value.Settled()
  {
    hide After, ActorInv;
    UninterruptedRun(es);
  }

  // ----- reapers defer to a live finalizer

  /** The row is not up for claiming, recovery holds nothing, and no reaper saw it past its deadline. */
  ghost predicate Deferred(s: System) {
    && s.row.Some? && !s.Claimable()
    && forall i | 0 <= i < |s.actors| ::
         && !s.actors[i].HoldsGrant()
         && (s.actors[i].Saw? || s.actors[i].LostClaim? ==> !s.actors[i].pastDeadline)
  }

  /** No launch, and no listing past the row's deadline. */
  ghost predicate InTime(e: Event, row: Row) { !e.RecordStart? && (e.List? ==> !row.PastDeadline(e.now)) }

  lemma DeferredStep(s: System, e: Event)
    requires Deferred(s) && InTime(e, s.row.value)
    ensures var s' := Apply(s, e);
      && Deferred(s') && s'.finishes == s.finishes && s'.grants == s.grants
      && s'.row.value.timeoutAt == s.row.value.timeoutAt
      && (s'.row.value.status != s.row.value.status ==> e.FinalizeLive?)
  {
  }

  /** What `mark_finalizing` is for. From a row that is being finalized, with no recovery owner and no reaper that
      saw it past its deadline: through every run without a launch or a listing past the deadline, recovery
      neither wins nor finishes the row, and only a live worker's own commit changes its status. */
  lemma {:induction false} ReapersDefer(s: System, es: seq<Event>)
    requires Deferred(s) && forall e | e in es :: InTime(e, s.row.value)
    ensures var s' := After(s, es);
      && Deferred(s') && s'.finishes == s.finishes && s'.grants == s.grants
      && s'.row.value.timeoutAt == s.row.value.timeoutAt
      && (s'.row.value.status != s.row.value.status ==> exists e :: e in es && e.FinalizeLive?)
  {
    if es != [] {
      hide Apply, Deferred;
      var init, e := es[..|es| - 1], es[|es| - 1];
      assert es == init + [e];
      assert e in es;
      ReapersDefer(s, init);
      DeferredHasRow(After(s, init));
      DeferredStep(After(s, init), e);
    }
  }

  lemma DeferredHasRow(s: System)
    requires Deferred(s)
    ensures s.row.Some?
  {
  }

  // ----- when recovery and a live worker both finish a launch

  /** A claim that wins the row, which no mark and no other claim has reached. */
  predicate ClaimsUnmarked(s: System, e: Event) {
    e.Claim? && e.commits && s.Sees(e.i) && s.Claimable()
  }

  /** A reclaim that wins a marked row past its deadline. */
  predicate ReclaimsMarked(s: System, e: Event) {
    e.Reclaim? && e.commits && s.At(e.i, LostClaim(true)) && s.Reclaimable()
  }

  predicate Marks(s: System, e: Event) {
    e.MarkFinalizing? && e.commits && s.At(e.i, LiveRunning) && s.Running()
  }

  /** A live worker's own commit of its outcome. */
  predicate LiveCommits(s: System, e: Event) {
    e.FinalizeLive? && e.commits && s.row.Some? && Live(s, e.i)
  }

  lemma GrantsStep(s: System, e: Event)
    ensures !e.RecordStart? ==> Apply(s, e).claims == s.claims + if ClaimsUnmarked(s, e) then 1 else 0
    ensures !e.RecordStart? ==> Apply(s, e).reclaims == s.reclaims + if ReclaimsMarked(s, e) then 1 else 0
    ensures e.RecordStart? ==> !ClaimsUnmarked(s, e) && !ReclaimsMarked(s, e)
  {
  }

  lemma {:induction false} GrantsSince(es: seq<Event>)
    ensures After(INIT, es).claims > 0 <==> exists k :: HappensSince(ClaimsUnmarked, es, k)
    ensures After(INIT, es).reclaims > 0 <==> exists k :: HappensSince(ReclaimsMarked, es, k)
  {
    if es != [] {
      hide Apply, ClaimsUnmarked, ReclaimsMarked, HappensSince;
      var init, s, e := es[..|es| - 1], After(INIT, es[..|es| - 1]), es[|es| - 1];
      GrantsSince(init);
      SinceSnoc(ClaimsUnmarked, es);
      SinceSnoc(ReclaimsMarked, es);
      GrantsStep(s, e);
      if e.RecordStart? {
        Restarted(s, e);
      }
    }
  }

  lemma UnclaimableStays(s: System, e: Event)
    requires ActorInv(s) && s.row.Some? && !s.Claimable() && !e.RecordStart?
    ensures Apply(s, e).row.Some? && !Apply(s, e).Claimable()
  {
  }

  lemma MarkTakes(s: System, e: Event)
    requires Marks(s, e)
    ensures Apply(s, e).row.Some? && !Apply(s, e).Claimable()
  {
  }

  lemma LiveCommitTakes(s: System, e: Event)
    requires LiveCommits(s, e)
    ensures Apply(s, e).row.Some? && Apply(s, e).row.value.Terminal()
  {
  }

  /** Since a mark the row cannot be claimed. */
  lemma {:induction false} MarkedStaysUnclaimable(es: seq<Event>)
    requires exists k :: HappensSince(Marks, es, k)
    ensures After(INIT, es).row.Some? && !After(INIT, es).Claimable()
  {
    if es != [] {
      hide Apply, Marks, HappensSince, ActorInv, RowInv, System.Claimable;
      var init, s, e := es[..|es| - 1], After(INIT, es[..|es| - 1]), es[|es| - 1];
      SinceSnoc(Marks, es);
      if Marks(s, e) {
        MarkTakes(s, e);
      } else {
        MarkedStaysUnclaimable(init);
        EveryRunKeepsInv(init);
        UnclaimableStays(s, e);
      }
    }
  }

  /** Since a live worker's commit the row is terminal. */
  lemma {:induction false} CommittedStaysTerminal(es: seq<Event>)
    requires exists k :: HappensSince(LiveCommits, es, k)
    ensures After(INIT, es).row.Some? && After(INIT, es).row.value.Terminal()
  {
    if es != [] {
      hide Apply, LiveCommits, HappensSince, ActorInv, RowInv;
      var init, s, e := es[..|es| - 1], After(INIT, es[..|es| - 1]), es[|es| - 1];
      SinceSnoc(LiveCommits, es);
      if LiveCommits(s, e) {
        LiveCommitTakes(s, e);
      } else {
        CommittedStaysTerminal(init);
        EveryRunKeepsInv(init);
        TerminalStep(s, e);
      }
    }
  }

  /** A step `k` since the launch is one since the launch of every longer prefix as well. */
  lemma SinceInPrefix(p: (System, Event) -> bool, es: seq<Event>, k: int, n: int)
    requires HappensSince(p, es, k) && k < n <= |es|
    ensures HappensSince(p, es[..n], k)
  {
    assert es[..n][..k] == es[..k];
  }

  /** The claim of a launch is won before every mark, and before every commit of a live worker. */
  lemma ClaimComesFirst(es: seq<Event>, j: int, k: int)
    requires HappensSince(ClaimsUnmarked, es, j)
    requires HappensSince(Marks, es, k) || HappensSince(LiveCommits, es, k)
    ensures j < k
  {
    hide After;
    if k < j {
      if HappensSince(Marks, es, k) {
        SinceInPrefix(Marks, es, k, j);
        MarkedStaysUnclaimable(es[..j]);
      } else {
        SinceInPrefix(LiveCommits, es, k, j);
        CommittedStaysTerminal(es[..j]);
      }
    }
  }

  /** And every reclaim is won before a live worker commits. */
  lemma ReclaimComesFirst(es: seq<Event>, j: int, k: int)
    requires HappensSince(ReclaimsMarked, es, j) && HappensSince(LiveCommits, es, k)
    ensures j < k
  {
    hide After;
    if k < j {
      SinceInPrefix(LiveCommits, es, k, j);
      CommittedStaysTerminal(es[..j]);
    }
  }

  /** The race that `mark_finalizing` is for, over every run. Recovery finishes a launch only if it won the claim
      before every mark, or reclaimed the marked row past its deadline, or committed a grant of an earlier launch;
      when its grants of the launch are used up, exactly then. So a launch that its live worker committed is finished
      by recovery as well exactly then, and the claim and the reclaims were won before that commit. */
  lemma RecoveryFinishesExactly(es: seq<Event>)
    ensures var s := After(INIT, es);
      var claimed, reclaimed, stale := exists k :: HappensSince(ClaimsUnmarked, es, k),
                                       exists k :: HappensSince(ReclaimsMarked, es, k),
                                       exists k :: HappensSince(CommitsStale, es, k);
      && (FinishesSince(es) > 0 ==> claimed || reclaimed || stale)
      && (s.gone == 0 && HoldersOf(s.actors, s.starts) == 0 ==>
            (FinishesSince(es) > 0 <==> claimed || reclaimed || stale))
    ensures forall j, k | HappensSince(ClaimsUnmarked, es, j) && HappensSince(Marks, es, k) :: j < k
    ensures forall j, k | HappensSince(LiveCommits, es, k)
              && (HappensSince(ClaimsUnmarked, es, j) || HappensSince(ReclaimsMarked, es, j)) :: j < k
  {
    hide After, HoldersOf, HappensSince, FinishesSince;
    FinishesAreOwnOrStale(es);
    StaleExactly(es);
    GrantsSince(es);
    EveryRunKeepsLaunchInv(es);
    forall j, k | HappensSince(ClaimsUnmarked, es, j) && HappensSince(Marks, es, k) ensures j < k {
      ClaimComesFirst(es, j, k);
    }
    forall j, k | HappensSince(LiveCommits, es, k)
      && (HappensSince(ClaimsUnmarked, es, j) || HappensSince(ReclaimsMarked, es, j)) ensures j < k {
      if HappensSince(ClaimsUnmarked, es, j) {
        ClaimComesFirst(es, j, k);
      } else {
        ReclaimComesFirst(es, j, k);
      }
    }
  }

  /** It happens: a run whose one launch is finished by its live worker and by a reaper. */
  lemma WorkerAndReaperFinish()
    ensures exists es ::
      After(INIT, es).starts == 1 && FinishesSince(es) == 1 && exists k :: HappensSince(LiveCommits, es, k)
  {
    hide After, HappensSince, FinishesSince;
    var es, s := CompletedUnderOwner();
    assert Apply(s, Commit(1, true)) == Move(s, Commit(1, true));
    var es', s' := es + [Commit(1, true)], Apply(s, Commit(1, true));
    SinceSnoc(LiveCommits, es');
    assert es'[..|es|] == es;
    AfterSnoc(es, Commit(1, true));
    FinishesAreOwnOrStale(es');
  }

  lemma AfterSnoc(es: seq<Event>, e: Event)
    ensures After(INIT, es + [e]) == Apply(After(INIT, es), e)
  {
    hide Apply;
    assert (es + [e])[..|es|] == es;
  }

  // ----- what a commit without a condition can undo

  /** `update_pid` does not look at the status: a finished row gets an engine pid again exactly
      when the supervisor reports a spawned child after the row became terminal. */
  lemma SettledUnlessPidReported(s: System, e: Event)
    requires ActorInv(s) && s.row.Some? && s.row.value.Settled() && !e.RecordStart?
    ensures Apply(s, e).row.Some?
    ensures Apply(s, e).row.value.Settled()
      <==> !(e.UpdatePid? && e.enginePid != None && s.At(e.i, LiveRunning))
  {
    if !e.Boot? && e.i < |s.actors| {
      assert Apply(s, e) == Move(s, e);
    }
  }

  /** It happens: a reaper finishes the run while its supervisor still spawns children. */
  lemma SettledRegainsPid()
    ensures exists es, e ::
      var s := After(INIT, es);
      s.row.Some? && s.row.value.Settled() && Apply(s, e).row.Some? && !Apply(s, e).row.value.Settled()
  {
    var es, s := Contested();
    es, s := Then(es, s, Decide(1, false, false));
    assert s.actors == [LiveRunning, Finishing(Failed, ReapedFailed, 1), LostClaim(true)];
    es, s := Then(es, s, Commit(1, true));
    assert s.actors == [LiveRunning, Gone, LostClaim(true)];
    assert Apply(s, UpdatePid(0, Some(8))) == Move(s, UpdatePid(0, Some(8)));
  }

  /** A completed run stays completed exactly until a recovery actor that already decided `failed`
      commits, or the launching worker commits an engine that was stopped or failed. */
  lemma CompletedUnlessFailureCommits(s: System, e: Event)
    requires ActorInv(s) && s.row.Some? && s.row.value.status == Completed && !e.RecordStart?
    ensures Apply(s, e).row.Some?
    ensures Apply(s, e).row.value.status == Completed <==>
      !(&& !e.Boot? && e.i < |s.actors|
        && ((e.Commit? && e.commits && s.actors[e.i].Finishing? && s.actors[e.i].outcome != Completed)
            || (e.FinalizeLive? && e.commits && s.actors[e.i].LiveRunning?)))
  {
    if !e.Boot? && e.i < |s.actors| {
      assert Apply(s, e) == Move(s, e);
    }
  }

  /** It happens: a reaper that claimed the run and looked at the report too soon fails it after its
      live worker completed it. */
  lemma CompletedRunOverwritten()
    ensures exists es, e ::
      var s := After(INIT, es);
      s.row.Some? && s.row.value.status == Completed && Apply(s, e).row.Some? && Apply(s, e).row.value.status == Failed
  {
    var es, s := CompletedUnderOwner();
    assert Apply(s, Commit(1, true)) == Move(s, Commit(1, true));
  }

  /** The live worker has completed the run, and a reaper still holds the claim. */
  lemma CompletedUnderOwner() returns (es: seq<Event>, s: System)
    ensures After(INIT, es) == s && exists k :: HappensSince(LiveCommits, es, k)
    ensures s == System(Some(Row(Completed, None, None, Some(10), None)),
                        [Gone, Finishing(Failed, ReapedFailed, 1), LostClaim(true)],
                        1, 0, 1, 0, 0, 0, 1, 1, 1, 0, 1, 0, 0, 0)
  {
    hide HappensSince;
    var init, before := MarkedUnderOwner();
    AfterSnoc(init, FinalizeLive(0, true, false));
    es, s := init + [FinalizeLive(0, true, false)], Apply(before, FinalizeLive(0, true, false));
    assert s.actors == [Gone, Finishing(Failed, ReapedFailed, 1), LostClaim(true)];
    SinceSnoc(LiveCommits, es);
    assert es[..|init|] == init;
  }

  lemma MarkedUnderOwner() returns (es: seq<Event>, s: System)
    ensures After(INIT, es) == s
    ensures s == System(Some(Row(RunStore.Running, Some(Finalizing), Some(7), Some(10), None)),
                        [LiveFinalizing, Finishing(Failed, ReapedFailed, 1), LostClaim(true)],
                        1, 0, 1, 0, 0, 0, 1, 1, 1, 0, 1, 0, 0, 0)
  {
    es, s := Contested();
    es, s := Then(es, s, Decide(1, false, false));
    assert s.actors == [LiveRunning, Finishing(Failed, ReapedFailed, 1), LostClaim(true)];
    es, s := Then(es, s, MarkFinalizing(0, true));
    assert s.actors == [LiveFinalizing, Finishing(Failed, ReapedFailed, 1), LostClaim(true)];
  }
}
