/** Grants and launches over every run of the protocol: when a launch gets a second owner, and how often
    recovery finishes it. */
module RecoveryGrants {
  import opened Wrappers
  import opened RunStore
  import opened RecoveryProtocol

  // ----- when a launch gets a second owner

  /** Every grant of the current launch is still held, or was committed, or was given up. */
  ghost predicate LaunchInv(s: System) {
    && (forall i | 0 <= i < |s.actors| :: s.actors[i].HoldsGrant() ==> s.actors[i].launch <= s.starts)
    && s.own + s.gone + HoldersOf(s.actors, s.starts) == s.claims + s.reclaims
  }

  lemma LaunchStart(s: System, e: Event)
    requires LaunchInv(s) && (e.RecordStart? || e.Boot?)
    ensures LaunchInv(Apply(s, e))
  {
    hide HoldersOf, Move;
    var s' := Apply(s, e);
    if e.RecordStart? {
      CountJoinedOf(s.actors, LiveRunning, s'.starts);
      NoHoldersOf(s.actors, s'.starts);
    } else {
      CountJoinedOf(s.actors, Booting, s.starts);
    }
  }

  lemma LaunchAttach(s: System, i: nat)
    requires LaunchInv(s) && i < |s.actors|
    ensures LaunchInv(Move(s, Attach(i)))
  {
    if s.actors[i].MayAttach() {
      CountMovedOf(s.actors, i, Gone, s.starts);
      CountJoinedOf(s.actors[i := Gone], Watching(s.actors[i].launch), s.starts);
    }
  }

  /** Replacing actor `i` keeps the tags when the new one's is that of the old or of the current launch. */
  lemma LaunchMoved(s: System, s': System, i: nat, a: Actor)
    requires LaunchInv(s) && i < |s.actors| && s'.actors == s.actors[i := a] && s'.starts == s.starts
    requires a.HoldsGrant() ==> a.launch <= s.starts
    requires s'.own + s'.gone + (if a.HoldsGrantOf(s.starts) then 1 else 0) - (s.own + s.gone)
      == s'.claims + s'.reclaims - (s.claims + s.reclaims) + if s.actors[i].HoldsGrantOf(s.starts) then 1 else 0
    ensures LaunchInv(s')
  {
    hide HoldersOf;
    CountMovedOf(s.actors, i, a, s.starts);
  }

  lemma LaunchContest(s: System, e: Event)
    requires LaunchInv(s) && (e.Claim? || e.Reclaim?) && e.i < |s.actors|
    ensures LaunchInv(Move(s, e))
  {
    hide HoldersOf, LaunchInv;
    var s' := Move(s, e);
    if s'.actors == s.actors {
      assert s' == s;
    } else {
      LaunchMoved(s, s', e.i, s'.actors[e.i]);
    }
  }

  lemma LaunchVerdict(s: System, e: Event)
    requires LaunchInv(s) && (e.Commit? || e.Crash? || e.Decide? || e.EngineExit?) && e.i < |s.actors|
    ensures LaunchInv(Move(s, e))
  {
    hide HoldersOf;
    var s' := Move(s, e);
    assert s'.actors == s.actors[e.i := s'.actors[e.i]];
    LaunchMoved(s, s', e.i, s'.actors[e.i]);
  }

  lemma LaunchRest(s: System, e: Event)
    requires LaunchInv(s) && (e.UpdatePid? || e.MarkFinalizing? || e.FinalizeLive? || e.List?) && e.i < |s.actors|
    ensures LaunchInv(Move(s, e))
  {
    hide HoldersOf, LaunchInv;
    var s' := Move(s, e);
    assert s'.actors == s.actors[e.i := s'.actors[e.i]];
    if s'.actors[e.i] == s.actors[e.i] {
      assert s'.actors == s.actors;
      LaunchSame(s, s');
    } else {
      LaunchMoved(s, s', e.i, s'.actors[e.i]);
    }
  }

  lemma LaunchSame(s: System, s': System)
    requires LaunchInv(s) && s'.actors == s.actors && s'.starts == s.starts && s'.own == s.own && s'.gone == s.gone
    requires s'.claims == s.claims && s'.reclaims == s.reclaims
    ensures LaunchInv(s')
  {
  }

  lemma LaunchStep(s: System, e: Event)
    requires LaunchInv(s)
    ensures LaunchInv(Apply(s, e))
  {
    hide LaunchInv, Move;
    if e.RecordStart? || e.Boot? {
      LaunchStart(s, e);
    } else if e.i < |s.actors| {
      if e.Attach? {
        LaunchAttach(s, e.i);
      } else {
        match e {
          case Claim(_, _) => LaunchContest(s, e);
          case Reclaim(_, _) => LaunchContest(s, e);
          case Commit(_, _) => LaunchVerdict(s, e);
          case Crash(_) => LaunchVerdict(s, e);
          case Decide(_, _, _) => LaunchVerdict(s, e);
          case EngineExit(_, _, _) => LaunchVerdict(s, e);
          case _ => LaunchRest(s, e);
        }
      }
    }
  }

  lemma {:induction false} EveryRunKeepsLaunchInv(es: seq<Event>)
    ensures LaunchInv(After(INIT, es))
  {
    if es != [] {
      hide LaunchInv, Apply;
      EveryRunKeepsLaunchInv(es[..|es| - 1]);
      LaunchStep(After(INIT, es[..|es| - 1]), es[|es| - 1]);
    }
  }

  /** A committed reclaim, past the deadline, of a row whose claim a mark overwrote. */
  predicate ReclaimsOverwritten(s: System, e: Event) {
    e.Reclaim? && e.commits && s.At(e.i, LostClaim(true)) && s.Reclaimable() && s.overMarks > 0
  }

  /** A claim or reclaim succeeds while one has already succeeded since record_start exactly when it is
      such a reclaim. */
  lemma SecondGrantExactly(es: seq<Event>, e: Event)
    ensures var s := After(INIT, es);
      && (Apply(s, e).grants > s.grants && s.claims + s.reclaims > 0 <==> ReclaimsOverwritten(s, e))
      && (Apply(s, e).again > s.again <==> ReclaimsOverwritten(s, e))
  {
    hide After, ActorInv;
    EveryRunKeepsInv(es);
  }

  /** Step `k` of the run is such a reclaim. */
  ghost predicate GrantsAgainAt(es: seq<Event>, k: int) {
    0 <= k < |es| && ReclaimsOverwritten(After(INIT, es[..k]), es[k])
  }

  /** No launch after step `k`. */
  ghost predicate InLastLaunch(es: seq<Event>, k: int) {
    forall j | 0 <= j < |es| && k < j :: !es[j].RecordStart?
  }

  /** Step `k` of the run is of kind `p`, and no launch follows it. */
  ghost predicate HappensSince(p: (System, Event) -> bool, es: seq<Event>, k: int) {
    0 <= k < |es| && p(After(INIT, es[..k]), es[k]) && InLastLaunch(es, k)
  }

  lemma SinceSnoc(p: (System, Event) -> bool, es: seq<Event>)
    requires es != []
    ensures var n := |es| - 1;
      (exists k :: HappensSince(p, es, k))
      <==> p(After(INIT, es[..n]), es[n]) || (!es[n].RecordStart? && exists k :: HappensSince(p, es[..n], k))
  {
    hide After;
    var n := |es| - 1;
    var init, e := es[..n], es[n];
    forall k | 0 <= k < n ensures HappensSince(p, es, k) <==> HappensSince(p, init, k) && !e.RecordStart? {
      assert es[..k] == init[..k] && es[k] == init[k];
      if InLastLaunch(es, k) {
        assert !es[n].RecordStart? && forall j | 0 <= j < n :: init[j] == es[j];
      }
      if InLastLaunch(init, k) && !e.RecordStart? {
        assert forall j | 0 <= j < n :: init[j] == es[j];
      }
    }
    assert HappensSince(p, es, n) <==> p(After(INIT, init), e);
    if k :| HappensSince(p, es, k) {
      assert k == n || HappensSince(p, init, k);
    }
    if !e.RecordStart? {
      if k :| HappensSince(p, init, k) {
        assert HappensSince(p, es, k);
      }
    }
  }

  lemma GrantsCounted(s: System, e: Event)
    requires !e.RecordStart?
    ensures var s' := Apply(s, e); s'.claims + s'.reclaims - (s.claims + s.reclaims) == s'.grants - s.grants
    ensures s.grants <= Apply(s, e).grants <= s.grants + 1
  {
  }

  /** A launch has two grants or more exactly when such a reclaim has occurred since it. */
  lemma {:induction false} SecondGrantSince(es: seq<Event>)
    ensures var s := After(INIT, es);
      s.claims + s.reclaims >= 2 <==> exists k :: HappensSince(ReclaimsOverwritten, es, k)
  {
    if es != [] {
      hide Apply, ReclaimsOverwritten, HappensSince;
      var init, s, e := es[..|es| - 1], After(INIT, es[..|es| - 1]), es[|es| - 1];
      SecondGrantSince(init);
      SecondGrantExactly(init, e);
      SinceSnoc(ReclaimsOverwritten, es);
      if e.RecordStart? {
        Restarted(s, e);
      } else {
        GrantsCounted(s, e);
      }
    }
  }

  lemma Restarted(s: System, e: Event)
    requires e.RecordStart?
    ensures Apply(s, e).claims == Apply(s, e).reclaims == Apply(s, e).stale == 0 && !ReclaimsOverwritten(s, e)
  {
  }

  lemma {:induction false} SomeGrantAgain(es: seq<Event>)
    ensures After(INIT, es).again > 0 <==> exists k :: GrantsAgainAt(es, k)
    decreases |es|
  {
    hide Apply, ReclaimsOverwritten;
    if es != [] {
      var n := |es| - 1;
      var init, s := es[..n], After(INIT, es[..n]);
      SomeGrantAgain(init);
      SecondGrantExactly(init, es[n]);
      AgainOnlyGrows(s, es[n]);
      assert GrantsAgainAt(es, n) <==> ReclaimsOverwritten(s, es[n]);
      forall k | 0 <= k < n ensures GrantsAgainAt(es, k) <==> GrantsAgainAt(init, k) {
        assert es[..k] == init[..k];
      }
    }
  }

  lemma AgainOnlyGrows(s: System, e: Event)
    ensures Apply(s, e).again >= s.again
  {
  }

  /** For every run, restarts included: the grants of the last launch are those committed, given up or still
      held, and they are two or more exactly when such a reclaim has occurred since that launch. So when none
      of them is held or was given up, the launch's own grants have finished the row twice or more exactly
      then; and without any such reclaim recovery never finishes more often than there were launches. */
  lemma FinishedTwiceExactly(es: seq<Event>)
    ensures var s, reclaimed := After(INIT, es), exists k :: HappensSince(ReclaimsOverwritten, es, k);
      && s.own + s.gone + HoldersOf(s.actors, s.starts) == s.claims + s.reclaims
      && (s.own + s.gone + HoldersOf(s.actors, s.starts) >= 2 <==> reclaimed)
      && (s.gone == 0 && HoldersOf(s.actors, s.starts) == 0 ==> (s.own >= 2 <==> reclaimed))
      && (s.finishes > s.starts ==> exists k :: GrantsAgainAt(es, k))
  {
    hide After, Holders, Attachers, HoldersOf, GrantsAgainAt, HappensSince;
    EveryRunKeepsInv(es);
    EveryRunKeepsLaunchInv(es);
    SecondGrantSince(es);
    SomeGrantAgain(es);
  }

  // ----- commits with a grant of an earlier launch

  /** A committed finish by an actor whose grant is of an earlier launch. */
  predicate CommitsStale(s: System, e: Event) {
    && e.Commit? && e.commits && s.row.Some? && e.i < |s.actors|
    && s.actors[e.i].Finishing? && s.actors[e.i].launch != s.starts
  }

  lemma StaleStep(s: System, e: Event)
    requires !e.RecordStart?
    ensures Apply(s, e).stale == s.stale + if CommitsStale(s, e) then 1 else 0
    ensures Apply(s, e).finishes - s.finishes == (Apply(s, e).own - s.own) + (Apply(s, e).stale - s.stale)
  {
  }

  lemma {:induction false} StaleExactly(es: seq<Event>)
    ensures After(INIT, es).stale > 0 <==> exists k :: HappensSince(CommitsStale, es, k)
  {
    if es != [] {
      hide Apply, CommitsStale, HappensSince;
      var init, s, e := es[..|es| - 1], After(INIT, es[..|es| - 1]), es[|es| - 1];
      StaleExactly(init);
      SinceSnoc(CommitsStale, es);
      if e.RecordStart? {
        Restarted(s, e);
        NotStale(s, e);
      } else {
        StaleStep(s, e);
      }
    }
  }

  lemma NotStale(s: System, e: Event)
    requires e.RecordStart?
    ensures !CommitsStale(s, e)
  {
  }

  /** The finishes since the last launch. */
  function FinishesSince(es: seq<Event>): int {
    if es == [] || es[|es| - 1].RecordStart? then 0
    else
      var init := es[..|es| - 1];
      FinishesSince(init) + Apply(After(INIT, init), es[|es| - 1]).finishes - After(INIT, init).finishes
  }

  lemma {:induction false} FinishesAreOwnOrStale(es: seq<Event>)
    ensures FinishesSince(es) == After(INIT, es).own + After(INIT, es).stale
  {
    if es != [] {
      hide Apply;
      var init, e := es[..|es| - 1], es[|es| - 1];
      FinishesAreOwnOrStale(init);
      if e.RecordStart? {
        StartsClean(After(INIT, init), e);
      } else {
        StaleStep(After(INIT, init), e);
      }
    }
  }

  lemma StartsClean(s: System, e: Event)
    requires e.RecordStart?
    ensures Apply(s, e).own == Apply(s, e).stale == 0
  {
  }

  /** For every run: recovery finishes a launch at most once, unless since that launch an overwritten claim was
      reclaimed, or a grant of an earlier launch was committed. Exactly, once every grant of the launch is used:
      it finished the launch twice or more when such a reclaim occurred, or two stale commits, or one beside
      a grant of its own. */
  lemma FinishedOnceUnless(es: seq<Event>)
    ensures var s := After(INIT, es);
      var reclaimed, stale :=
        exists k :: HappensSince(ReclaimsOverwritten, es, k), exists k :: HappensSince(CommitsStale, es, k);
      && FinishesSince(es) == s.own + s.stale
      && (s.stale > 0 <==> stale)
      && (!reclaimed && !stale ==> FinishesSince(es) <= 1)
      && (s.gone == 0 && HoldersOf(s.actors, s.starts) == 0 ==>
            (FinishesSince(es) >= 2 <==> reclaimed || s.stale >= 2 || (stale && s.claims + s.reclaims > 0)))
  {
    hide After, HoldersOf, HappensSince, GrantsAgainAt, FinishesSince;
    FinishesAreOwnOrStale(es);
    StaleExactly(es);
    FinishedTwiceExactly(es);
  }

  /** The bound is reached: `mark_finalizing` overwrites a claimed row, so two reapers can both
      finish one run. */
  lemma TwoReapersFinishOneRun()
    ensures exists es ::
      var s := After(INIT, es);
      s.starts == 1 && s.claims == 1 && s.reclaims == 1 && s.overMarks == 1 && s.finishes == 2
  {
    hide Apply, After;
    var es, s := Overmarked();
    es, s := BothFinish(es, s);
  }

  /** A mark overwrote the claim, and the second reaper reclaimed the run. */
  lemma Overmarked() returns (es: seq<Event>, s: System)
    ensures After(INIT, es) == s
    ensures s == System(Some(Row(RunStore.Running, Some(Claimed), Some(7), Some(10), None)),
                        [LiveFinalizing, Owner(false, false, 1), Owner(true, true, 1)],
                        1, 1, 1, 0, 0, 0, 1, 1, 2, 1, 1, 0, 0, 0)
  {
    es, s := Marked();
    es, s := Then(es, s, Reclaim(2, true));
    assert s.actors == [LiveFinalizing, Owner(false, false, 1), Owner(true, true, 1)];
  }

  lemma Marked() returns (es: seq<Event>, s: System)
    ensures After(INIT, es) == s
    ensures s == System(Some(Row(RunStore.Running, Some(Finalizing), Some(7), Some(10), None)),
                        [LiveFinalizing, Owner(false, false, 1), LostClaim(true)],
                        1, 0, 1, 0, 0, 0, 1, 1, 1, 0, 1, 0, 0, 0)
  {
    es, s := Contested();
    es, s := Then(es, s, MarkFinalizing(0, true));
    assert s.actors == [LiveFinalizing, Owner(false, false, 1), LostClaim(true)];
  }

  lemma BothFinish(es0: seq<Event>, s0: System) returns (es: seq<Event>, s: System)
    requires After(INIT, es0) == s0 && s0.row.Some? && |s0.actors| == 3
    requires s0.actors[1] == Owner(false, false, 1) && s0.actors[2] == Owner(true, true, 1)
    ensures After(INIT, es) == s && s.finishes == s0.finishes + 2
    ensures (s.starts, s.claims, s.reclaims, s.overMarks) == (s0.starts, s0.claims, s0.reclaims, s0.overMarks)
  {
    es, s := OwnerFinishes(es0, s0, 1);
    es, s := OwnerFinishes(es, s, 2);
  }

  lemma OwnerFinishes(es0: seq<Event>, s0: System, i: nat) returns (es: seq<Event>, s: System)
    requires After(INIT, es0) == s0 && s0.row.Some? && i < |s0.actors| && s0.actors[i].Owner?
    ensures After(INIT, es) == s && s.row.Some? && s.actors == s0.actors[i := Gone] && s.finishes == s0.finishes + 1
    ensures (s.starts, s.claims, s.reclaims, s.overMarks) == (s0.starts, s0.claims, s0.reclaims, s0.overMarks)
    ensures s.again == s0.again
    ensures var own := s0.actors[i].launch == s0.starts;
      (s.own, s.stale) == if own then (s0.own + 1, s0.stale) else (s0.own, s0.stale + 1)
  {
    es, s := Then(es0, s0, Decide(i, false, false));
    es, s := Then(es, s, Commit(i, true));
  }

  /** Two reapers saw the run, one after its deadline; the other holds the claim. */
  lemma Contested() returns (es: seq<Event>, s: System)
    ensures After(INIT, es) == s
    ensures s == System(Some(Row(RunStore.Running, Some(Claimed), Some(7), Some(10), None)),
                        [LiveRunning, Owner(false, false, 1), LostClaim(true)],
                        1, 0, 0, 0, 0, 0, 1, 1, 1, 0, 0, 0, 0, 0)
  {
    es, s := ClaimedOnce();
    es, s := Then(es, s, Claim(2, true));
    assert s.actors == [LiveRunning, Owner(false, false, 1), LostClaim(true)];
  }

  /** It happens without any mark: the run is launched again while a reaper of the first launch decides, and
      then its commit and that of the second launch's own reaper both land on the second launch. */
  lemma StaleCommitHappens()
    ensures exists es ::
      var s := After(INIT, es);
      s.own == 1 && s.stale == 1 && s.overMarks == 0 && !exists k :: GrantsAgainAt(es, k)
  {
    hide Apply, After, GrantsAgainAt;
    var es, s := Relaunched();
    es, s := OwnerFinishes(es, s, 1);
    es, s := OwnerFinishes(es, s, 2);
    SomeGrantAgain(es);
  }

  lemma Relaunched() returns (es: seq<Event>, s: System)
    ensures After(INIT, es) == s
    ensures s == System(Some(Row(RunStore.Running, Some(Claimed), Some(8), Some(11), None)),
                        [LiveRunning, Owner(false, false, 1), Owner(false, true, 2), LiveRunning],
                        1, 0, 0, 0, 0, 0, 2, 2, 2, 0, 0, 0, 0, 0)
  {
    es, s := ClaimedOnce();
    es, s := Then(es, s, RecordStart(Some(8), 1, 10));
    assert s.actors == [LiveRunning, Owner(false, false, 1), Saw(true), LiveRunning];
    es, s := Then(es, s, Claim(2, true));
    assert s.actors == [LiveRunning, Owner(false, false, 1), Owner(false, true, 2), LiveRunning];
  }

  lemma ClaimedOnce() returns (es: seq<Event>, s: System)
    ensures After(INIT, es) == s
    ensures s == System(Some(Row(RunStore.Running, Some(Claimed), Some(7), Some(10), None)),
                        [LiveRunning, Owner(false, false, 1), Saw(true)],
                        1, 0, 0, 0, 0, 0, 1, 1, 1, 0, 0, 0, 0, 0)
  {
    es, s := Listed();
    es, s := Then(es, s, Claim(1, true));
    assert s.actors == [LiveRunning, Owner(false, false, 1), Saw(true)];
  }

  lemma Booted() returns (es: seq<Event>, s: System)
    ensures After(INIT, es) == s
    ensures s == System(Some(Row(RunStore.Running, None, Some(7), Some(10), None)),
                        [LiveRunning, Booting, Booting],
                        0, 0, 0, 0, 0, 0, 1, 0, 0, 0, 0, 0, 0, 0)
  {
    es, s := Then([], INIT, RecordStart(Some(7), 0, 10));
    es, s := Then(es, s, Boot);
    es, s := Then(es, s, Boot);
    assert s.actors == [LiveRunning, Booting, Booting];
  }

  lemma Listed() returns (es: seq<Event>, s: System)
    ensures After(INIT, es) == s
    ensures s == System(Some(Row(RunStore.Running, None, Some(7), Some(10), None)),
                        [LiveRunning, Saw(false), Saw(true)],
                        0, 0, 0, 0, 0, 0, 1, 0, 0, 0, 0, 0, 0, 0)
  {
    es, s := Booted();
    es, s := Then(es, s, List(1, 0));
    assert s.actors == [LiveRunning, Saw(false), Booting];
    es, s := Then(es, s, List(2, 11));
    assert s.actors == [LiveRunning, Saw(false), Saw(true)];
  }
}
