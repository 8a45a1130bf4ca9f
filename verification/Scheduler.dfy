/** Daily capture slots with a grace window and a last-fired guard. Times are microseconds of UTC. */
module Scheduler {
  import opened Collections
  import opened Wrappers

  const MINUTE := 60_000_000
  const HOUR := 60 * MINUTE
  const DAY := 24 * HOUR
  const GRACE := 3 * MINUTE

  /** One `times_utc` entry; Malformed when it is not two integers around a colon. */
  datatype Entry = Malformed | At(hh: int, mm: int)

  /** `durationOk` says whether the configured duration converts to an integer. */
  datatype Schedule = Schedule(enabled: bool, times: seq<Entry>, durationOk: bool)

  datatype Failure = ValueError

  predicate InRange(e: Entry) { e.At? ==> 0 <= e.hh < 24 && 0 <= e.mm < 60 }

  function OfDay(e: Entry): int
    requires e.At?
  {
    e.hh * HOUR + e.mm * MINUTE
  }

  function SlotToday(e: Entry, now: nat): int
    requires e.At?
  {
    now / DAY * DAY + OfDay(e)
  }

  predicate IsDue(e: Entry, now: nat, last: Option<nat>) {
    && e.At? && InRange(e)
    && SlotToday(e, now) <= now <= SlotToday(e, now) + GRACE
    && (last.Some? ==> last.value < SlotToday(e, now))
  }

  function DueSlotToday(times: seq<Entry>, now: nat, last: Option<nat>): Result<bool, Failure> {
    if times == [] then Ok(false)
    else if !InRange(times[0]) then Err(ValueError)
    else if IsDue(times[0], now, last) then Ok(true)
    else DueSlotToday(times[1..], now, last)
  }

  method CheckDueSlot(times: seq<Entry>, now: nat, last: Option<nat>) returns (due: Result<bool, Failure>)
    ensures due == DueSlotToday(times, now, last)
  {
    for i := 0 to |times|
      invariant DueSlotToday(times, now, last) == DueSlotToday(times[i..], now, last)
    {
      assert times[i..][1..] == times[i + 1..];
      var e := times[i];
      if e.Malformed? {
        continue;
      }
      if !InRange(e) {
        return Err(ValueError);
      }
      var slot := SlotToday(e, now);
      if slot > now || now - slot > GRACE || (last.Some? && last.value >= slot) {
        continue;
      }
      return Ok(true);
    }
    return Ok(false);
  }

  datatype Outcome = Skip | Trigger | Raise

  function OutcomeOf(schedule: Option<Schedule>, last: Option<nat>, now: nat): Outcome {
    if schedule.None? || !schedule.value.enabled then Skip
    else
      match DueSlotToday(schedule.value.times, now, last)
      case Err(_) => Raise
      case Ok(due) => if !due then Skip else if schedule.value.durationOk then Trigger else Raise
  }

  class Project {
    const schedule: Option<Schedule>
    var lastTriggered: Option<nat>

    constructor (schedule: Option<Schedule>)
      ensures this.schedule == schedule && lastTriggered == None
    {
      this.schedule, lastTriggered := schedule, None;
    }

    function Outcome(now: nat): Outcome reads this { OutcomeOf(schedule, lastTriggered, now) }
  }

  /** What the start call of one online agent does: it may start a capture and raise all the same. */
  datatype Answer = Answer(starts: bool, raises: bool)

  /** The online agents' answers to a trigger, and whether the stamp that follows them commits. */
  datatype Response = Response(answers: seq<Answer>, commits: bool) {
    predicate Completes() { commits && forall a | a in answers :: !a.raises }
  }

  /** The captures started up to the first call that raises. */
  function Started(answers: seq<Answer>): nat {
    if answers == [] then 0
    else (if answers[0].starts then 1 else 0) + if answers[0].raises then 0 else Started(answers[1..])
  }

  method StartCaptures(answers: seq<Answer>) returns (started: nat, raised: bool)
    ensures started == Started(answers)
    ensures raised <==> exists a :: a in answers && a.raises
  {
    started, raised := 0, false;
    for i := 0 to |answers|
      invariant started + Started(answers[i..]) == Started(answers)
      invariant forall j | 0 <= j < i :: !answers[j].raises
    {
      assert answers[i..][1..] == answers[i + 1..];
      started := started + if answers[i].starts then 1 else 0;
      if answers[i].raises {
        return started, true;
      }
    }
  }

  /** The tick ends at this project with an exception. */
  predicate EndsTick(outcome: Outcome, response: Response) {
    outcome == Raise || (outcome == Trigger && !response.Completes())
  }

  ghost predicate Reached(outcomes: seq<Outcome>, responses: seq<Response>, i: int)
    requires 0 <= i <= |outcomes| == |responses|
  {
    forall j | 0 <= j < i :: !EndsTick(outcomes[j], responses[j])
  }

  /** One tick. An exception ends it, so the projects after the first one that raises are not looked at; and the
      captures of a project start before its stamp commits. */
  method RunDueSchedules(projects: seq<Project>, responses: seq<Response>, now: nat)
    returns (starts: seq<nat>, raised: bool)
    requires Distinct(projects) && |responses| == |projects|
    modifies set p | p in projects
    ensures |starts| == |projects|
    ensures var outcomes := seq(|projects|, i requires 0 <= i < |projects| => old(projects[i].Outcome(now)));
      && (raised <==> exists i | 0 <= i < |projects| :: EndsTick(outcomes[i], responses[i]))
      && (forall i | 0 <= i < |projects| ::
            projects[i].lastTriggered
            == if Reached(outcomes, responses, i) && outcomes[i] == Trigger && responses[i].Completes()
               then Some(now) else old(projects[i].lastTriggered))
      && (forall i | 0 <= i < |projects| ::
            starts[i]
            == if Reached(outcomes, responses, i) && outcomes[i] == Trigger then Started(responses[i].answers) else 0)
  {
    hide OutcomeOf, EndsTick, Started;
    ghost var outcomes := seq(|projects|, i requires 0 <= i < |projects| => old(projects[i].Outcome(now)));
    raised := false;
    starts := seq(|projects|, _ => 0);
    for i := 0 to |projects|
      invariant |starts| == |projects| && Reached(outcomes, responses, i)
      invariant forall j | 0 <= j < i ::
          projects[j].lastTriggered
          == if outcomes[j] == Trigger && responses[j].Completes() then Some(now) else old(projects[j].lastTriggered)
      invariant forall j | i <= j < |projects| :: projects[j].lastTriggered == old(projects[j].lastTriggered)
      invariant forall j | 0 <= j < |projects| ::
          starts[j] == if j < i && outcomes[j] == Trigger then Started(responses[j].answers) else 0
    {
      var started, ended := Visit(projects[i], responses[i], now);
      starts := starts[i := started];
      if ended {
        return starts, true;
      }
    }
  }

  /** The loop body: one project, and whether an exception ends the tick there. */
  method Visit(p: Project, response: Response, now: nat) returns (started: nat, ended: bool)
    modifies p
    ensures ended <==> EndsTick(old(p.Outcome(now)), response)
    ensures p.lastTriggered
      == if old(p.Outcome(now)) == Trigger && response.Completes() then Some(now) else old(p.lastTriggered)
    ensures started == if old(p.Outcome(now)) == Trigger then Started(response.answers) else 0
  {
    hide DueSlotToday, Started;
    if p.schedule.None? || !p.schedule.value.enabled {
      return 0, false;
    }
    var due := CheckDueSlot(p.schedule.value.times, now, p.lastTriggered);
    if due.Err? {
      return 0, true;
    }
    if !due.value {
      return 0, false;
    }
    if !p.schedule.value.durationOk {
      return 0, true;
    }
    var failed;
    started, failed := StartCaptures(response.answers);
    if failed || !response.commits {
      return started, true;
    }
    p.lastTriggered := Some(now);
    ended := false;
  }

  // ----- when a check says due, and when it raises

  ghost predicate FirstOddity(times: seq<Entry>, now: nat, last: Option<nat>, i: int) {
    && 0 <= i < |times| && (!InRange(times[i]) || IsDue(times[i], now, last))
    && forall j | 0 <= j < i :: InRange(times[j]) && !IsDue(times[j], now, last)
  }

  /** The entries are taken in order up to the first that is out of range or due: the check raises for the
      former, triggers for the latter, and otherwise skips. */
  lemma {:induction false} DueCharacterised(times: seq<Entry>, now: nat, last: Option<nat>)
    ensures match DueSlotToday(times, now, last)
      case Err(_) => exists i :: FirstOddity(times, now, last, i) && !InRange(times[i])
      case Ok(true) => exists i :: FirstOddity(times, now, last, i) && IsDue(times[i], now, last)
      case Ok(false) => forall e | e in times :: InRange(e) && !IsDue(e, now, last)
  {
    hide IsDue, InRange;
    if times != [] {
      if !InRange(times[0]) || IsDue(times[0], now, last) {
        Sane(times[0], now, last);
        assert FirstOddity(times, now, last, 0);
      } else {
        var rest := times[1..];
        DueCharacterised(rest, now, last);
        if i :| FirstOddity(rest, now, last, i) {
          assert forall j | 0 < j <= i + 1 :: times[j] == rest[j - 1];
          assert FirstOddity(times, now, last, i + 1);
        }
        assert times == [times[0]] + rest;
      }
    }
  }

  lemma Sane(e: Entry, now: nat, last: Option<nat>)
    ensures IsDue(e, now, last) ==> InRange(e)
  {
  }

  // ----- the check and the tick in the clock's own figures

  /** An hour and a minute of the day, or malformed. */
  ghost predicate OnTheClock(e: Entry) { e.At? ==> 0 <= e.hh <= 23 && 0 <= e.mm <= 59 }

  /** The entry's time on the day of `now`, in microseconds. */
  ghost function TimeOn(e: Entry, now: nat): int
    requires e.At?
  {
    now - now % 86_400_000_000 + (60 * e.hh + e.mm) * 60_000_000
  }

  /** The entry's time has come, at most three minutes ago, and nothing was stamped since. */
  ghost predicate Due(e: Entry, now: nat, last: Option<nat>) {
    && e.At? && OnTheClock(e)
    && TimeOn(e, now) <= now && now - TimeOn(e, now) <= 180_000_000
    && !(exists at | last == Some(at) :: at >= TimeOn(e, now))
  }

  lemma DueByTheClock(e: Entry, now: nat, last: Option<nat>)
    ensures InRange(e) <==> OnTheClock(e)
    ensures IsDue(e, now, last) <==> Due(e, now, last)
  {
    if e.At? {
      DayStart(now);
    }
  }

  lemma DayStart(now: nat)
    ensures now / DAY * DAY == now - now % 86_400_000_000
  {
  }

  /** What a tick does to a project, by the first of its entries that is off the clock or due: nothing without an
      enabled schedule or without such an entry; an exception for an entry off the clock or for a duration that does
      not convert; else the captures are triggered. */
  lemma OutcomeByTheClock(schedule: Option<Schedule>, last: Option<nat>, now: nat)
    ensures var outcome := OutcomeOf(schedule, last, now);
      && (outcome == Skip <==>
            schedule == None || !schedule.value.enabled
            || forall e | e in schedule.value.times :: OnTheClock(e) && !Due(e, now, last))
      && (outcome == Trigger <==>
            schedule != None && schedule.value.enabled && schedule.value.durationOk
            && exists i :: FirstToDecide(schedule.value.times, now, last, i) && Due(schedule.value.times[i], now, last))
  {
    hide DueSlotToday, IsDue, InRange, Due, OnTheClock;
    if schedule.Some? {
      var times := schedule.value.times;
      DueCharacterised(times, now, last);
      forall e | e in times ensures (InRange(e) <==> OnTheClock(e)) && (IsDue(e, now, last) <==> Due(e, now, last)) {
        DueByTheClock(e, now, last);
      }
      forall i ensures FirstOddity(times, now, last, i) <==> FirstToDecide(times, now, last, i) {
        SameDecider(times, now, last, i);
      }
      OneDecider(times, now, last);
    }
  }

  ghost predicate FirstToDecide(times: seq<Entry>, now: nat, last: Option<nat>, i: int) {
    && 0 <= i < |times| && (!OnTheClock(times[i]) || Due(times[i], now, last))
    && forall j | 0 <= j < i :: OnTheClock(times[j]) && !Due(times[j], now, last)
  }

  lemma SameDecider(times: seq<Entry>, now: nat, last: Option<nat>, i: int)
    ensures FirstOddity(times, now, last, i) <==> FirstToDecide(times, now, last, i)
  {
    hide IsDue, InRange, Due, OnTheClock;
    forall j | 0 <= j < |times|
      ensures InRange(times[j]) <==> OnTheClock(times[j])
      ensures IsDue(times[j], now, last) <==> Due(times[j], now, last)
    {
      DueByTheClock(times[j], now, last);
    }
  }

  lemma OneDecider(times: seq<Entry>, now: nat, last: Option<nat>)
    ensures forall i, j | FirstToDecide(times, now, last, i) && FirstToDecide(times, now, last, j) :: i == j
    ensures forall i | FirstToDecide(times, now, last, i) :: Due(times[i], now, last) ==> OnTheClock(times[i])
  {
    hide OnTheClock;
  }

  // ----- runs

  /** A tick that reaches the project, with the schedule it has then and the response to a trigger. */
  datatype Tick = Tick(now: nat, schedule: Option<Schedule>, response: Response)

  function LastAfter(ticks: seq<Tick>, last: Option<nat>): Option<nat> {
    if ticks == [] then last
    else
      var t, before := ticks[|ticks| - 1], LastAfter(ticks[..|ticks| - 1], last);
      if OutcomeOf(t.schedule, before, t.now) == Trigger && t.response.Completes() then Some(t.now) else before
  }

  ghost predicate InOrder(ticks: seq<Tick>) {
    forall i, j | 0 <= i <= j < |ticks| :: ticks[i].now <= ticks[j].now
  }

  ghost predicate Triggers(ticks: seq<Tick>, last: Option<nat>, i: int) {
    0 <= i < |ticks| && OutcomeOf(ticks[i].schedule, LastAfter(ticks[..i], last), ticks[i].now) == Trigger
  }

  /** Tick `i` triggers and commits its stamp. */
  ghost predicate Stamps(ticks: seq<Tick>, last: Option<nat>, i: int) {
    Triggers(ticks, last, i) && ticks[i].response.Completes()
  }

  /** Tick `i` triggers with the slot of entry `e` at time `s` due. */
  ghost predicate CoversBy(ticks: seq<Tick>, last: Option<nat>, i: int, s: int, e: Entry) {
    && Triggers(ticks, last, i) && e in ticks[i].schedule.value.times
    && IsDue(e, ticks[i].now, LastAfter(ticks[..i], last)) && SlotToday(e, ticks[i].now) == s
  }

  ghost predicate Covers(ticks: seq<Tick>, last: Option<nat>, i: int, s: int) {
    exists e :: CoversBy(ticks, last, i, s, e)
  }

  lemma {:induction false} LastKept(ticks: seq<Tick>, last: Option<nat>, i: int, j: int)
    requires InOrder(ticks) && 0 <= i < j <= |ticks| && Stamps(ticks, last, i)
    ensures LastAfter(ticks[..j], last).Some? && LastAfter(ticks[..j], last).value >= ticks[i].now
    decreases j
  {
    hide OutcomeOf;
    assert ticks[..j][..j - 1] == ticks[..j - 1];
    if j > i + 1 {
      LastKept(ticks, last, i, j - 1);
    }
  }

  /** Every trigger has a due slot, at most the grace period ago. */
  lemma TriggerWithinGrace(ticks: seq<Tick>, last: Option<nat>, i: int)
    requires Triggers(ticks, last, i)
    ensures exists s :: Covers(ticks, last, i, s) && s <= ticks[i].now <= s + GRACE
  {
    var before, t := LastAfter(ticks[..i], last), ticks[i];
    hide DueSlotToday, LastAfter;
    DueCharacterised(t.schedule.value.times, t.now, before);
    var j :| FirstOddity(t.schedule.value.times, t.now, before, j) && IsDue(t.schedule.value.times[j], t.now, before);
    var e := t.schedule.value.times[j];
    assert CoversBy(ticks, last, i, SlotToday(e, t.now), e);
    assert Covers(ticks, last, i, SlotToday(e, t.now));
  }

  /** In a run with a nondecreasing clock, and even when the schedule is edited between ticks: a slot that
      triggered triggers again only while no stamp has committed since. So it triggers at most once when every
      trigger commits its stamp. */
  lemma SlotFiresOnce(ticks: seq<Tick>, last: Option<nat>, i: int, j: int, s: int)
    requires InOrder(ticks) && Covers(ticks, last, i, s) && Covers(ticks, last, j, s)
    ensures forall k | i <= k < j :: !Stamps(ticks, last, k)
    ensures (forall k :: Triggers(ticks, last, k) ==> Stamps(ticks, last, k)) ==> i == j
  {
    hide LastAfter, OutcomeOf, SlotToday;
    var d :| CoversBy(ticks, last, i, s, d);
    var e :| CoversBy(ticks, last, j, s, e);
    forall k | i <= k < j ensures !Stamps(ticks, last, k) {
      if Stamps(ticks, last, k) {
        LastKept(ticks, last, k, j);
      }
    }
    if j < i && Stamps(ticks, last, j) {
      LastKept(ticks, last, j, i);
    }
  }

  lemma {:induction false} LastUnchanged(ticks: seq<Tick>, last: Option<nat>, i: int, j: int)
    requires 0 <= i <= j <= |ticks| && forall k | i <= k < j :: !Stamps(ticks, last, k)
    ensures LastAfter(ticks[..j], last) == LastAfter(ticks[..i], last)
    decreases j
  {
    hide OutcomeOf;
    if i < j {
      assert ticks[..j][..j - 1] == ticks[..j - 1];
      LastUnchanged(ticks, last, i, j - 1);
      assert !Stamps(ticks, last, j - 1);
    }
  }

  /** The tick falls into the grace window of the slot at `s`, and its schedule is usable and has that slot. */
  ghost predicate InWindowOf(t: Tick, s: int, e: Entry) {
    && t.schedule.Some? && t.schedule.value.enabled && t.schedule.value.durationOk
    && (forall d | d in t.schedule.value.times :: InRange(d))
    && e in t.schedule.value.times && e.At? && SlotToday(e, t.now) == s <= t.now <= s + GRACE
  }

  ghost predicate InWindow(t: Tick, s: int) { exists e :: InWindowOf(t, s, e) }

  lemma DueInWindow(ticks: seq<Tick>, last: Option<nat>, j: nat, s: int)
    requires j < |ticks| && InWindow(ticks[j], s)
    requires var before := LastAfter(ticks[..j], last); before.Some? ==> before.value < s
    ensures Covers(ticks, last, j, s)
  {
    hide LastAfter, DueSlotToday, SlotToday;
    var before, e := LastAfter(ticks[..j], last), SlotEntry(ticks[j], s);
    assert IsDue(e, ticks[j].now, before);
    DueCharacterised(ticks[j].schedule.value.times, ticks[j].now, before);
    assert CoversBy(ticks, last, j, s, e);
  }

  ghost function SlotEntry(t: Tick, s: int): (e: Entry)
    requires InWindow(t, s)
    ensures InWindowOf(t, s, e)
  {
    var e :| InWindowOf(t, s, e); e
  }

  /** After a slot triggered, a tick in its window triggers it again exactly when no stamp has committed since:
      the captures start before the stamp, so a call that raises, or a commit that fails, starts them again. */
  lemma TriggersAgainExactly(ticks: seq<Tick>, last: Option<nat>, i: int, j: int, s: int)
    requires InOrder(ticks) && Covers(ticks, last, i, s) && i < j < |ticks| && InWindow(ticks[j], s)
    ensures Covers(ticks, last, j, s) <==> forall k | i <= k < j :: !Stamps(ticks, last, k)
  {
    hide LastAfter, OutcomeOf, SlotToday, Stamps;
    if forall k | i <= k < j :: !Stamps(ticks, last, k) {
      LastUnchanged(ticks, last, i, j);
      var d :| CoversBy(ticks, last, i, s, d);
      DueInWindow(ticks, last, j, s);
    } else if Covers(ticks, last, j, s) {
      SlotFiresOnce(ticks, last, i, j, s);
    }
  }

  // ----- no slot is missed

  /** The same usable schedule at every tick, and consecutive ticks at most `gap` apart. */
  ghost predicate Steady(ticks: seq<Tick>, times: seq<Entry>, gap: int) {
    && InOrder(ticks)
    && (forall i | 0 <= i < |ticks| :: ticks[i].schedule == Some(Schedule(true, times, true)))
    && (forall i | 0 <= i < |ticks| - 1 :: ticks[i + 1].now - ticks[i].now <= gap)
    && (forall e | e in times :: InRange(e))
  }

  lemma SlotOnItsDay(e: Entry, day: nat, now: nat)
    requires e.At? && InRange(e) && day * DAY <= now < (day + 1) * DAY
    ensures SlotToday(e, now) == day * DAY + OfDay(e)
  {
    assert now / DAY == day;
  }

  lemma {:induction false} LastBefore(ticks: seq<Tick>, last: Option<nat>, i: nat, s: int)
    requires InOrder(ticks) && i <= |ticks| && (last.Some? ==> last.value < s)
    requires i > 0 ==> ticks[i - 1].now < s
    ensures var l := LastAfter(ticks[..i], last); l.Some? ==> l.value < s
  {
    hide OutcomeOf;
    if i > 0 {
      assert ticks[..i][..i - 1] == ticks[..i - 1];
      LastBefore(ticks, last, i - 1, s);
    }
  }

  lemma FirstTickAtOrAfter(ticks: seq<Tick>, s: int) returns (i: nat)
    requires ticks != [] && s <= ticks[|ticks| - 1].now
    ensures i < |ticks| && s <= ticks[i].now && forall j | 0 <= j < i :: ticks[j].now < s
  {
    i := 0;
    while ticks[i].now < s
      invariant i < |ticks| && forall j | 0 <= j < i :: ticks[j].now < s
      decreases |ticks| - i
    {
      i := i + 1;
    }
  }

  /** When ticks are at most `gap` apart, at most a microsecond more than the grace period, and the slot is at
      least `gap` before midnight, every occurrence of the slot in the ticking period triggers, inside its
      grace window. With ticks up to three minutes apart that is every slot no later than 23:57. */
  lemma EverySlotFires(ticks: seq<Tick>, last: Option<nat>, times: seq<Entry>, gap: int, e: Entry, day: nat, s: int)
    requires Steady(ticks, times, gap) && 1 <= gap <= GRACE + 1
    requires e in times && e.At? && OfDay(e) + gap <= DAY && s == day * DAY + OfDay(e)
    requires ticks != [] && ticks[0].now <= s <= ticks[|ticks| - 1].now
    requires last.Some? ==> last.value < s
    ensures exists i :: Covers(ticks, last, i, s)
  {
    hide LastAfter, DueSlotToday;
    var i := FirstTickAtOrAfter(ticks, s);
    var now := ticks[i].now;
    if i > 0 {
      var j := i - 1;
      assert ticks[j + 1].now - ticks[j].now <= gap;
    }
    assert now < s + gap;
    SlotOnItsDay(e, day, now);
    LastBefore(ticks, last, i, s);
    var before := LastAfter(ticks[..i], last);
    assert IsDue(e, now, before);
    DueCharacterised(times, now, before);
    assert CoversBy(ticks, last, i, s, e);
    assert Covers(ticks, last, i, s);
  }

  lemma OneEntry(e: Entry, now: nat)
    requires InRange(e) && !IsDue(e, now, None)
    ensures DueSlotToday([e], now, None) == Ok(false)
  {
    assert [e][1..] == [];
  }

  /** The bounds are exact. A slot nearer to midnight than the gap can be missed for good, because the tick
      after it computes the slot of the next day. */
  lemma LateSlotCanBeMissed(e: Entry, day: nat, gap: int) returns (ticks: seq<Tick>)
    requires e.At? && InRange(e) && 1 <= gap <= GRACE + 1 && OfDay(e) + gap > DAY
    ensures Steady(ticks, [e], gap) && |ticks| == 2
    ensures ticks[0].now <= day * DAY + OfDay(e) <= ticks[1].now
    ensures forall i, s :: !Covers(ticks, None, i, s)
  {
    var s := day * DAY + OfDay(e);
    SlotOnItsDay(e, day, s - 1);
    SlotOnItsDay(e, day + 1, s - 1 + gap);
    ticks := NeverDue(e, s - 1, s - 1 + gap, gap);
  }

  /** And any slot can be missed when ticks may be further apart than its grace window is long. */
  lemma WideGapMissesSlot(e: Entry, day: nat, gap: int) returns (ticks: seq<Tick>)
    requires e.At? && InRange(e) && gap >= GRACE + 2 && day * DAY + OfDay(e) > 0
    ensures Steady(ticks, [e], gap) && |ticks| == 2
    ensures ticks[0].now <= day * DAY + OfDay(e) <= ticks[1].now
    ensures forall i, s :: !Covers(ticks, None, i, s)
  {
    var s := day * DAY + OfDay(e);
    if OfDay(e) == 0 {
      SlotOnItsDay(e, day - 1, s - 1);
    } else {
      SlotOnItsDay(e, day, s - 1);
    }
    if OfDay(e) + GRACE + 1 < DAY {
      SlotOnItsDay(e, day, s + GRACE + 1);
    } else {
      SlotOnItsDay(e, day + 1, s + GRACE + 1);
    }
    ticks := NeverDue(e, s - 1, s + GRACE + 1, gap);
  }

  lemma NeverDue(e: Entry, first: nat, second: nat, gap: int) returns (ticks: seq<Tick>)
    requires e.At? && InRange(e) && first <= second <= first + gap
    requires !IsDue(e, first, None) && !IsDue(e, second, None)
    ensures Steady(ticks, [e], gap) && |ticks| == 2 && ticks[0].now == first && ticks[1].now == second
    ensures forall i, s :: !Covers(ticks, None, i, s)
  {
    var schedule := Some(Schedule(true, [e], true));
    ticks := [Tick(first, schedule, Response([], true)), Tick(second, schedule, Response([], true))];
    OneEntry(e, first);
    OneEntry(e, second);
    hide DueSlotToday, IsDue, SlotToday;
    assert ticks[..0] == [] && ticks[..1] == [ticks[0]] && [ticks[0]][..0] == [];
    assert LastAfter(ticks[..1], None) == None;
    forall i, s ensures !Covers(ticks, None, i, s) {
      assert !Triggers(ticks, None, i);
    }
  }

  /** Nor do other entries of the schedule help: the same two ticks miss the slot in any schedule that has it. */
  lemma SlotCanBeMissed(times: seq<Entry>, e: Entry, day: nat, s: int, gap: int) returns (ticks: seq<Tick>)
    requires e in times && e.At? && (forall d | d in times :: InRange(d))
    requires gap >= 1 && s == day * DAY + OfDay(e) > 0
    requires gap > GRACE + 1 || OfDay(e) + gap > DAY
    ensures Steady(ticks, times, gap) && |ticks| == 2 && ticks[0].now <= s <= ticks[1].now
    ensures forall i :: !Covers(ticks, None, i, s)
  {
    var schedule := Some(Schedule(true, times, true));
    var second := if gap > GRACE + 1 then s + GRACE + 1 else s - 1 + gap;
    ticks := [Tick(s - 1, schedule, Response([], true)), Tick(second, schedule, Response([], true))];
    if second <= s + GRACE {
      NextDay(day, second);
    }
    hide LastAfter, OutcomeOf;
  }

  lemma NextDay(day: nat, now: nat)
    requires now >= (day + 1) * DAY
    ensures forall d: Entry | d.At? && InRange(d) :: SlotToday(d, now) >= (day + 1) * DAY
  {
    assert now / DAY >= day + 1;
  }

  /** A steady run around time `s`, with no stamp at or after `s` before it. */
  ghost predicate RunAround(ticks: seq<Tick>, last: Option<nat>, times: seq<Entry>, s: int, gap: int) {
    && Steady(ticks, times, gap) && ticks != [] && ticks[0].now <= s <= ticks[|ticks| - 1].now
    && (last.Some? ==> last.value < s)
  }

  /** Every run of ticks at most `gap` apart, around the slot at `s`, triggers it. */
  ghost predicate AlwaysFires(times: seq<Entry>, s: int, gap: int) {
    forall ticks, last | RunAround(ticks, last, times, s, gap) :: exists i :: Covers(ticks, last, i, s)
  }

  /** Both bounds in one, for any schedule: the slot of a day always triggers exactly when the gap is at most a
      microsecond more than the grace period and leaves room before midnight. */
  lemma AlwaysFiresExactly(times: seq<Entry>, e: Entry, day: nat, s: int, gap: int)
    requires e in times && e.At? && (forall d | d in times :: InRange(d))
    requires gap >= 1 && s == day * DAY + OfDay(e) > 0
    ensures AlwaysFires(times, s, gap) <==> gap <= GRACE + 1 && OfDay(e) + gap <= DAY
  {
    hide Covers, OfDay, InRange;
    if gap <= GRACE + 1 && OfDay(e) + gap <= DAY {
      forall ticks, last | RunAround(ticks, last, times, s, gap) ensures exists i :: Covers(ticks, last, i, s) {
        EverySlotFires(ticks, last, times, gap, e, day, s);
      }
    } else {
      var ticks := SlotCanBeMissed(times, e, day, s, gap);
      assert RunAround(ticks, None, times, s, gap);
    }
  }

  // ----- one trigger per slot

  /** A steady run between two ticks in a slot's window stays in it. */
  lemma WindowIsConvex(ticks: seq<Tick>, times: seq<Entry>, gap: int, s: int, i: nat, k: nat, j: nat)
    requires Steady(ticks, times, gap) && i <= k <= j < |ticks| && InWindow(ticks[i], s) && InWindow(ticks[j], s)
    ensures InWindow(ticks[k], s)
  {
    hide InRange;
    var e := SlotEntry(ticks[j], s);
    var d := SlotEntry(ticks[i], s);
    SameDay(d, e, ticks[i].now, ticks[j].now, ticks[k].now);
    assert InWindowOf(ticks[k], s, e);
  }

  lemma SameDay(d: Entry, e: Entry, first: nat, second: nat, now: nat)
    requires d.At? && e.At? && InRange(d) && InRange(e) && SlotToday(d, first) == SlotToday(e, second)
    requires first <= now <= second
    ensures SlotToday(e, now) == SlotToday(e, second)
  {
    assert 0 <= OfDay(d) < DAY && 0 <= OfDay(e) < DAY;
    assert first / DAY <= now / DAY <= second / DAY;
  }

  lemma CoveredIsInWindow(ticks: seq<Tick>, last: Option<nat>, times: seq<Entry>, gap: int, i: int, s: int)
    requires Steady(ticks, times, gap) && Covers(ticks, last, i, s)
    ensures 0 <= i < |ticks| && InWindow(ticks[i], s)
  {
    hide LastAfter, OutcomeOf, SlotToday, InRange;
    var e :| CoversBy(ticks, last, i, s, e);
    assert InWindowOf(ticks[i], s, e);
  }

  /** In a run with one usable schedule a slot triggers only once exactly when its first trigger commits the stamp
      or no further tick falls into its window. */
  lemma TriggersOnceExactly(ticks: seq<Tick>, last: Option<nat>, times: seq<Entry>, gap: int, i: int, s: int)
    requires Steady(ticks, times, gap) && Covers(ticks, last, i, s) && forall j | j < i :: !Covers(ticks, last, j, s)
    ensures (forall j :: Covers(ticks, last, j, s) ==> j == i)
      <==> Stamps(ticks, last, i) || i + 1 == |ticks| || !InWindow(ticks[i + 1], s)
  {
    hide Covers, Stamps, InWindow;
    CoveredIsInWindow(ticks, last, times, gap, i, s);
    if i + 1 < |ticks| && InWindow(ticks[i + 1], s) {
      TriggersAgainExactly(ticks, last, i, i + 1, s);
    }
    forall j | Covers(ticks, last, j, s) && j > i
      ensures !Stamps(ticks, last, i) && i + 1 < |ticks| && InWindow(ticks[i + 1], s)
    {
      CoveredIsInWindow(ticks, last, times, gap, j, s);
      SlotFiresOnce(ticks, last, i, j, s);
      WindowIsConvex(ticks, times, gap, s, i, i + 1, j);
    }
  }

  /** It happens: one agent's capture starts, the next agent's call raises, and a minute later the first agent is
      started for the same slot again. */
  lemma SlotStartsTwice(e: Entry, day: nat, s: nat) returns (ticks: seq<Tick>)
    requires e.At? && InRange(e) && s == day * DAY + OfDay(e)
    ensures Steady(ticks, [e], MINUTE) && |ticks| == 2
    ensures Covers(ticks, None, 0, s) && Covers(ticks, None, 1, s)
    ensures forall i | 0 <= i < 2 :: Started(ticks[i].response.answers) == 1
  {
    var schedule := Some(Schedule(true, [e], true));
    var response := Response([Answer(true, false), Answer(false, true)], true);
    ticks := [Tick(s, schedule, response), Tick(s + MINUTE - 1, schedule, response)];
    assert OfDay(e) + MINUTE - 1 < DAY;
    SlotOnItsDay(e, day, s);
    SlotOnItsDay(e, day, s + MINUTE - 1);
    hide OfDay, SlotToday, InRange, LastAfter, OutcomeOf;
    assert response.answers[1..] == [Answer(false, true)] && response.answers[1].raises;
    assert !response.Completes();
    FirstIsNone(ticks);
    assert InWindowOf(ticks[0], s, e) && InWindowOf(ticks[1], s, e);
    DueInWindow(ticks, None, 0, s);
    assert !Stamps(ticks, None, 0);
    TriggersAgainExactly(ticks, None, 0, 1, s);
  }

  lemma FirstIsNone(ticks: seq<Tick>)
    ensures LastAfter(ticks[..0], None) == None
  {
  }
}
