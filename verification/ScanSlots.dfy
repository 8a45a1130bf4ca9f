/** The in-memory run registry and its concurrency limit. Every method is one critical section of
    the registry lock, except the two writes of a finishing run, which take no lock. */
module ScanSlots {
  import opened Collections
  import opened Wrappers

  type RunId = string

  datatype Phase = Pending | Running | Completed | Failed | Stopped

  datatype Run = Run(phase: Phase, finishedAt: Option<int>) {
    predicate Active() { phase == Pending || phase == Running }
    predicate Expired(now: int) { !Active() && finishedAt.Some? && now - finishedAt.value > RUN_CLEANUP_SECONDS }
  }

  /** Ended, and finished more than an hour ago. */
  ghost predicate Outdated(run: Run, now: int) {
    && (run.phase == Completed || run.phase == Failed || run.phase == Stopped)
    && exists at | run.finishedAt == Some(at) :: at + 3600 < now
  }

  lemma ExpiredIsOutdated(run: Run, now: int)
    ensures run.Expired(now) <==> Outdated(run, now)
  {
  }

  type Runs = map<RunId, Run>

  const MAX_CONCURRENT_SCANS: nat := 1
  const RUN_CLEANUP_SECONDS: int := 3600

  function ActiveIds(runs: Runs): set<RunId> {
    set id | id in runs && runs[id].Active()
  }

  function Cleaned(runs: Runs, now: int): Runs {
    map id | id in runs && !runs[id].Expired(now) :: runs[id]
  }

  predicate Admits(runs: Runs) {
    |ActiveIds(runs)| < MAX_CONCURRENT_SCANS
  }

  function Released(runs: Runs, id: RunId): Runs {
    if id in runs && runs[id].phase == Pending then runs - {id} else runs
  }

  lemma NoneActive(runs: Runs)
    ensures |ActiveIds(runs)| == 0
      <==> forall id | id in runs :: runs[id].phase != Pending && runs[id].phase != Running
  {
    if id :| id in runs && (runs[id].phase == Pending || runs[id].phase == Running) {
      assert id in ActiveIds(runs);
    } else {
      assert ActiveIds(runs) == {};
    }
  }

  class Registry {
    var runs: Runs

    constructor ()
      ensures runs == map[]
    {
      runs := map[];
    }

    method Cleanup(now: int)
      modifies this
      ensures runs == Cleaned(old(runs), now)
      ensures ActiveIds(runs) == ActiveIds(old(runs))
      ensures forall id :: id in runs <==> id in old(runs) && !Outdated(old(runs)[id], now)
    {
      var toRemove: set<RunId> := {};
      var rest := runs.Keys;
      while rest != {}
        invariant rest <= runs.Keys
        invariant toRemove == set id | id in runs && id !in rest && runs[id].Expired(now)
        decreases rest
      {
        var id :| id in rest;
        if runs[id].Expired(now) {
          toRemove := toRemove + {id};
        }
        rest := rest - {id};
      }
      runs := runs - toRemove;
      forall id | id in old(runs) ensures id in runs <==> !Outdated(old(runs)[id], now) {
        ExpiredIsOutdated(old(runs)[id], now);
      }
    }

    method GetActive() returns (active: set<RunId>)
      ensures active == ActiveIds(runs)
      ensures forall id :: id in active <==> id in runs && (runs[id].phase == Pending || runs[id].phase == Running)
    {
      active := {};
      var rest := runs.Keys;
      while rest != {}
        invariant rest <= runs.Keys
        invariant active == set id | id in runs && id !in rest && runs[id].Active()
        decreases rest
      {
        var id :| id in rest;
        if runs[id].Active() {
          active := active + {id};
        }
        rest := rest - {id};
      }
    }

    /** Check and insertion in one critical section; a refusal names the limit and the active runs. */
    method Reserve(id: RunId, now: int) returns (admitted: bool, refusal: Option<(nat, set<RunId>)>)
      modifies this
      ensures admitted <==> Admits(old(runs))
      ensures admitted <==>
        forall id | id in old(runs) :: old(runs)[id].phase != Pending && old(runs)[id].phase != Running
      ensures runs == if admitted then Cleaned(old(runs), now)[id := Run(Pending, None)] else Cleaned(old(runs), now)
      ensures refusal == if admitted then None else Some((1, ActiveIds(old(runs))))
      ensures admitted ==> ActiveIds(runs) == ActiveIds(old(runs)) + {id} && |ActiveIds(runs)| <= MAX_CONCURRENT_SCANS
    {
      NoneActive(runs);
      Cleanup(now);
      var active := GetActive();
      admitted, refusal := |active| < MAX_CONCURRENT_SCANS, None;
      if admitted {
        runs := runs[id := Run(Pending, None)];
        assert ActiveIds(runs) == active + {id};
      } else {
        refusal := Some((MAX_CONCURRENT_SCANS, active));
      }
    }

    /** Launching a reserved run takes no further slot. */
    method Launch(id: RunId)
      modifies this
      ensures runs == old(runs)[id := Run(Running, None)]
      ensures id in ActiveIds(old(runs)) ==> ActiveIds(runs) == ActiveIds(old(runs))
    {
      runs := runs[id := Run(Running, None)];
    }

    method Release(id: RunId)
      modifies this
      ensures runs == Released(old(runs), id)
      ensures ActiveIds(runs) <= ActiveIds(old(runs)) <= ActiveIds(runs) + {id}
    {
      if id in runs && runs[id].phase == Pending {
        runs := runs - {id};
      }
    }
  }

  /** One event of the interleaving below, carried out on the registry. The sets say what the requests have
      drawn, reserved and launched so far. */
  method Serve(registry: Registry, s: Server, e: Event) returns (s': Server)
    requires registry.runs == s.runs
    modifies registry
    ensures s' == Apply(s, e) && registry.runs == s'.runs
  {
    s' := Apply(s, e);
    match e {
      case Reserve(id, now) =>
        if id !in s.drawn {
          var _, _ := registry.Reserve(id, now);
        }
      case Launch(id) =>
        if id in s.reserved {
          registry.Launch(id);
        }
      case Release(id) =>
        if id in s.reserved {
          registry.Release(id);
        }
      case StampFinished(id, at) =>
        if id in s.launched && id in registry.runs {
          registry.runs := registry.runs[id := registry.runs[id].(finishedAt := Some(at))];
        }
      case Finish(id, phase) =>
        if id in s.launched && id in registry.runs && phase != Pending && phase != Running {
          registry.runs := registry.runs[id := registry.runs[id].(phase := phase)];
        }
      case Cleanup(now) => registry.Cleanup(now);
    }
  }

  // ----- every interleaving of requests

  /** A request draws a fresh run id, tries to reserve a slot, then either launches the run or
      releases the slot; a launched run later stamps `finished_at` and only then its final status. */
  datatype Event =
    | Reserve(id: RunId, now: int)
    | Launch(id: RunId)
    | Release(id: RunId)
    | StampFinished(id: RunId, at: int)
    | Finish(id: RunId, phase: Phase)
    | Cleanup(now: int)

  datatype Server = Server(runs: Runs, drawn: set<RunId>, reserved: set<RunId>, launched: set<RunId>)

  const IDLE := Server(map[], {}, {}, {})

  function Apply(s: Server, e: Event): Server {
    match e
    case Reserve(id, now) =>
      if id in s.drawn then s
      else if Admits(s.runs) then
        Server(Cleaned(s.runs, now)[id := Run(Pending, None)], s.drawn + {id}, s.reserved + {id}, s.launched)
      else s.(runs := Cleaned(s.runs, now), drawn := s.drawn + {id})
    case Launch(id) =>
      if id !in s.reserved then s
      else s.(runs := s.runs[id := Run(Running, None)], reserved := s.reserved - {id}, launched := s.launched + {id})
    case Release(id) =>
      if id !in s.reserved then s else s.(runs := Released(s.runs, id), reserved := s.reserved - {id})
    case StampFinished(id, at) =>
      if id in s.launched && id in s.runs then s.(runs := s.runs[id := s.runs[id].(finishedAt := Some(at))]) else s
    case Finish(id, phase) =>
      if id in s.launched && id in s.runs && phase != Pending && phase != Running
      then s.(runs := s.runs[id := s.runs[id].(phase := phase)]) else s
    case Cleanup(now) => s.(runs := Cleaned(s.runs, now))
  }

  function After(es: seq<Event>): Server {
    if es == [] then IDLE else Apply(After(es[..|es| - 1]), es[|es| - 1])
  }

  ghost predicate Inv(s: Server) {
    && |ActiveIds(s.runs)| <= 1
    && s.reserved !! s.launched
    && s.runs.Keys <= s.reserved + s.launched <= s.drawn
    && (forall id | id in s.reserved :: id in s.runs && s.runs[id].phase == Pending)
    && (forall id | id in s.runs && s.runs[id].phase == Pending :: id in s.reserved)
  }

  /** A request's run id is drawn for good. */
  lemma IdsAreDrawnOnce(s: Server, e: Event)
    ensures s.drawn <= Apply(s, e).drawn && (e.Reserve? ==> e.id in Apply(s, e).drawn)
  {
  }

  lemma CleanedKeepsActive(runs: Runs, now: int)
    ensures ActiveIds(Cleaned(runs, now)) == ActiveIds(runs)
  {
  }

  lemma ReserveKeepsInv(s: Server, id: RunId, now: int)
    requires Inv(s)
    ensures Inv(Apply(s, Reserve(id, now)))
  {
    CleanedKeepsActive(s.runs, now);
    if id !in s.drawn && Admits(s.runs) {
      assert ActiveIds(Apply(s, Reserve(id, now)).runs) == ActiveIds(s.runs) + {id};
    }
  }

  lemma ApplyKeepsInv(s: Server, e: Event)
    requires Inv(s)
    ensures Inv(Apply(s, e))
  {
    match e {
      case Reserve(id, now) => ReserveKeepsInv(s, id, now);
      case Cleanup(now) => CleanedKeepsActive(s.runs, now);
      case _ => SubsetSize(ActiveIds(Apply(s, e).runs), ActiveIds(s.runs));
    }
  }

  /** Pending and running runs together never exceed the limit, in any interleaving. */
  lemma {:induction false} LimitHoldsInEveryRun(es: seq<Event>)
    ensures Inv(After(es)) && |ActiveIds(After(es).runs)| <= 1
  {
    if es != [] {
      LimitHoldsInEveryRun(es[..|es| - 1]);
      ApplyKeepsInv(After(es[..|es| - 1]), es[|es| - 1]);
    }
  }

  /** A live run leaves the registry only after its own final status: a late release or a cleanup
      never evicts it, and no other request can overwrite it. */
  lemma RunningRunIsNeverEvicted(s: Server, e: Event, id: RunId)
    requires Inv(s) && id in s.runs && s.runs[id].phase == Running
    requires !(e.Finish? && e.id == id)
    ensures id in Apply(s, e).runs && Apply(s, e).runs[id].phase == Running
  {
    assert id in s.launched;
  }

  /** While a slot is reserved or running at the limit, every other request is turned away. */
  lemma ReservationCountsAtOnce(s: Server, id: RunId, now: int, other: RunId, now': int)
    requires Inv(s) && id !in s.drawn && other !in s.drawn + {id} && Admits(s.runs)
    ensures var s' := Apply(s, Reserve(id, now)); other !in Apply(s', Reserve(other, now')).runs
  {
    var s' := Apply(s, Reserve(id, now));
    CleanedKeepsActive(s.runs, now);
    assert ActiveIds(s'.runs) == ActiveIds(s.runs) + {id};
  }
}
