/** Deliveries of several workers at once. A delivery reads the ledger in one step and then calls the platform
    and records a ticket finding by finding, so the steps of different deliveries interleave. */
module TicketWorkers {
  import opened Collections
  import opened TicketLedger

  /** A delivery under way: what it will attempt, how far it is, and what existed when it read the ledger. */
  datatype Worker = Worker(d: Delivery, fs: seq<Finding>, next: nat, ticketsAtRead: seq<Row>, rowsAtRead: seq<Row>) {
    predicate Busy() { next < |fs| }
  }

  datatype World = World(st: State, workers: seq<Worker>)

  datatype Step = Read(d: Delivery) | Open(w: nat)

  const NOBODY := World(State([], []), [])

  function Apply(world: World, step: Step): World {
    match step
    case Read(d) =>
      var st := world.st;
      world.(workers := world.workers + [Worker(d, Attempts(st, d), 0, st.tickets, st.rows)])
    case Open(i) =>
      if i < |world.workers| && world.workers[i].Busy() then
        var w := world.workers[i];
        World(Ticket(world.st, w.d, w.fs[w.next], w.next), world.workers[i := w.(next := w.next + 1)])
      else world
  }

  function After(steps: seq<Step>): World {
    if steps == [] then NOBODY else Apply(After(steps[..|steps| - 1]), steps[|steps| - 1])
  }

  // ----- a delivery alone

  function OpenTimes(world: World, i: nat, n: nat): World {
    if n == 0 then world else Apply(OpenTimes(world, i, n - 1), Open(i))
  }

  lemma {:induction false} OpensAreTicketAll(world: World, i: nat, n: nat)
    requires i < |world.workers| && world.workers[i].next == 0 && n <= |world.workers[i].fs|
    ensures var w, world' := world.workers[i], OpenTimes(world, i, n);
      && |world'.workers| == |world.workers| && world'.workers[i] == w.(next := n)
      && world'.st == TicketAll(world.st, w.d, w.fs[..n])
  {
    if n > 0 {
      hide Ticket;
      OpensAreTicketAll(world, i, n - 1);
      var fs := world.workers[i].fs;
      assert fs[..n][..n - 1] == fs[..n - 1];
    }
  }

  /** A delivery whose steps are not interleaved with others is the sequential delivery. */
  lemma UninterruptedIsDelivery(world: World, d: Delivery)
    ensures OpenTimes(Apply(world, Read(d)), |world.workers|, |Attempts(world.st, d)|).st == AfterDelivery(world.st, d)
  {
    hide Attempts, TicketAll;
    var fs := Attempts(world.st, d);
    OpensAreTicketAll(Apply(world, Read(d)), |world.workers|, |fs|);
    assert fs[..|fs|] == fs;
  }

  // ----- when interleaved deliveries open a ticket twice

  /** The step opens a ticket for `row`. */
  predicate OpensRow(world: World, step: Step, row: Row) {
    && step.Open? && step.w < |world.workers| && world.workers[step.w].Busy()
    && var w := world.workers[step.w];
       AnswerTo(w.d, w.next).Opened? && RowOf(w.d, w.fs[w.next]) == row
  }

  /** The row has a ticket that was opened after worker `w` read the ledger. */
  predicate OpenedSinceRead(world: World, w: Worker, row: Row) {
    |w.ticketsAtRead| <= |world.st.tickets| && row in world.st.tickets[|w.ticketsAtRead|..]
  }

  /** The row had a ticket when worker `w` read the ledger, and its write was lost. */
  predicate LostBeforeRead(w: Worker, row: Row) { row in w.ticketsAtRead && row !in w.rowsAtRead }

  /** The step opens a second ticket: one was opened since its worker read the ledger, or lost before. */
  ghost predicate OpensAgain(world: World, step: Step) {
    && step.Open? && step.w < |world.workers|
    && exists row :: OpensRow(world, step, row)
         && (OpenedSinceRead(world, world.workers[step.w], row) || LostBeforeRead(world.workers[step.w], row))
  }

  /** Every worker remembers a prefix of the tickets, and attempts only findings that had no row. */
  ghost predicate Remembers(world: World) {
    forall i | 0 <= i < |world.workers| ::
      && world.workers[i].ticketsAtRead <= world.st.tickets
      && forall f | f in world.workers[i].fs :: RowOf(world.workers[i].d, f) !in world.workers[i].rowsAtRead
  }

  lemma StepRemembers(world: World, step: Step)
    requires Remembers(world)
    ensures Remembers(Apply(world, step))
  {
    hide Attempts, RowOf;
    if step.Read? {
      AttemptsAreFresh(world.st, step.d);
    }
  }

  lemma {:induction false} AlwaysRemembers(steps: seq<Step>)
    ensures Remembers(After(steps))
  {
    if steps != [] {
      hide Apply, Remembers;
      AlwaysRemembers(steps[..|steps| - 1]);
      StepRemembers(After(steps[..|steps| - 1]), steps[|steps| - 1]);
    }
  }

  /** An attempted row has a ticket exactly when one was opened since the read or lost before it. */
  lemma TicketedWhen(world: World, step: Step, row: Row)
    requires Remembers(world) && OpensRow(world, step, row)
    ensures var w := world.workers[step.w];
      row in world.st.tickets <==> OpenedSinceRead(world, w, row) || LostBeforeRead(w, row)
  {
    hide RowOf;
    var w, n := world.workers[step.w], |world.workers[step.w].ticketsAtRead|;
    assert w.fs[w.next] in w.fs && row !in w.rowsAtRead;
    assert world.st.tickets == w.ticketsAtRead + world.st.tickets[n..];
  }

  lemma StepTickets(world: World, step: Step)
    ensures var tickets := Apply(world, step).st.tickets;
      if exists row :: OpensRow(world, step, row) then
        exists row :: OpensRow(world, step, row) && tickets == world.st.tickets + [row]
      else tickets == world.st.tickets
  {
    hide RowOf, Attempts;
    if step.Open? && step.w < |world.workers| && world.workers[step.w].Busy() {
      var w := world.workers[step.w];
      if AnswerTo(w.d, w.next).Opened? {
        assert OpensRow(world, step, RowOf(w.d, w.fs[w.next]));
      }
    }
  }

  lemma StepKeepsUnique(world: World, step: Step)
    requires Remembers(world)
    ensures Distinct(Apply(world, step).st.tickets) <==> Distinct(world.st.tickets) && !OpensAgain(world, step)
  {
    hide Apply, Remembers, Distinct, OpenedSinceRead, LostBeforeRead;
    StepTickets(world, step);
    if row :| OpensRow(world, step, row) && Apply(world, step).st.tickets == world.st.tickets + [row] {
      DistinctSnoc(world.st.tickets, row);
      TicketedWhen(world, step, row);
      OneRow(world, step, row);
    }
  }

  lemma OneRow(world: World, step: Step, row: Row)
    requires OpensRow(world, step, row)
    ensures forall other :: OpensRow(world, step, other) ==> other == row
  {
  }

  ghost predicate OpensAgainAt(steps: seq<Step>, k: int) {
    0 <= k < |steps| && OpensAgain(After(steps[..k]), steps[k])
  }

  /** Over every interleaving of any number of deliveries, refusals and lost writes included: each project's key
      has at most one ticket per platform exactly when no step opens one for a row that got its ticket after
      the worker read the ledger, from another worker or its own delivery, or lost its write before. */
  lemma {:induction false} UniqueExactlyWhenNoneRaces(steps: seq<Step>)
    ensures Distinct(After(steps).st.tickets) <==> forall k :: !OpensAgainAt(steps, k)
  {
    if steps != [] {
      hide Apply, Distinct, OpensAgain;
      var n := |steps| - 1;
      var init := steps[..n];
      UniqueExactlyWhenNoneRaces(init);
      AlwaysRemembers(init);
      StepKeepsUnique(After(init), steps[n]);
      assert OpensAgainAt(steps, n) <==> OpensAgain(After(init), steps[n]);
      forall k | 0 <= k < n ensures OpensAgainAt(steps, k) <==> OpensAgainAt(init, k) {
        assert steps[..k] == init[..k];
      }
    }
  }

  /** Two workers that both read before either records open two tickets for one finding, although every call and
      every ledger write succeeds. */
  lemma TwoWorkersOpenTwice(f: Finding, project: int, platform: Platform)
    ensures var d := Delivery(project, platform, true, [f], [Opened(true)]);
      !Distinct(After([Read(d), Read(d), Open(0), Open(1)]).st.tickets)
  {
    hide RowOf;
    var d := Delivery(project, platform, true, [f], [Opened(true)]);
    var steps := [Read(d), Read(d), Open(0), Open(1)];
    var w := Worker(d, [f], 0, [], []);
    BothRead(d, f);
    assert steps[..3][..2] == [Read(d), Read(d)];
    assert After(steps[..3]).st.tickets == [RowOf(d, f)] && After(steps[..3]).workers[1] == w;
    assert After(steps).st.tickets == [RowOf(d, f), RowOf(d, f)];
    assert After(steps).st.tickets[0] == After(steps).st.tickets[1];
  }

  lemma BothRead(d: Delivery, f: Finding)
    requires d.configured && d.findings == [f]
    ensures var w := Worker(d, [f], 0, [], []); After([Read(d), Read(d)]) == World(State([], []), [w, w])
  {
    hide KeyOf;
    var one, two := [Read(d)], [Read(d), Read(d)];
    assert Already([], d.project, d.platform) == {};
    NewAfterPrefix(d, {}, d.findings, 0);
    assert Attempts(State([], []), d) == [f];
    assert one[..0] == [] && two[..1] == one;
    assert After(one) == World(State([], []), [Worker(d, [f], 0, [], [])]);
  }
}
