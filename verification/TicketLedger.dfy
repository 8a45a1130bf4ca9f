/** Ticket deliveries to Zammad and Jira with a ledger of the findings already ticketed. */
module TicketLedger {
  import opened Collections

  const MAX_TICKETS_PER_DELIVERY := 25

  datatype Platform = Zammad | Jira

  datatype Finding = Finding(category: string, description: string, affected: seq<string>)

  /** The deduplication digest, taken as injective, covers these fields and the project. */
  datatype Key = Key(project: int, category: string, description: string, affected: multiset<string>)

  function KeyOf(project: int, f: Finding): Key { Key(project, f.category, f.description, multiset(f.affected)) }

  datatype Row = Row(project: int, platform: Platform, key: Key)

  /** What one call of the platform does: refuse, or open a ticket whose ledger write succeeds or is lost. */
  datatype Answer = Refused | Opened(recorded: bool)

  datatype Delivery = Delivery(
    project: int, platform: Platform, configured: bool, findings: seq<Finding>, answers: seq<Answer>)

  datatype Summary = Summary(created: nat, skipped: nat, failed: nat)

  /** `rows` is the ledger table; `tickets` are the tickets the platforms hold, in order of opening. */
  datatype State = State(rows: seq<Row>, tickets: seq<Row>)

  function AnswerTo(d: Delivery, i: nat): Answer { if i < |d.answers| then d.answers[i] else Refused }

  function RowOf(d: Delivery, f: Finding): Row { Row(d.project, d.platform, KeyOf(d.project, f)) }

  function Already(rows: seq<Row>, project: int, platform: Platform): set<Key> {
    set r | r in rows && r.project == project && r.platform == platform :: r.key
  }

  function NewFindings(d: Delivery, already: set<Key>, fs: seq<Finding>): seq<Finding> {
    if fs == [] then []
    else
      var f := fs[|fs| - 1];
      NewFindings(d, already, fs[..|fs| - 1]) + if KeyOf(d.project, f) in already then [] else [f]
  }

  function Cap(fs: seq<Finding>): seq<Finding> {
    if |fs| > MAX_TICKETS_PER_DELIVERY then fs[..MAX_TICKETS_PER_DELIVERY] else fs
  }

  /** The findings a delivery calls the platform for. */
  function Attempts(st: State, d: Delivery): seq<Finding> {
    if !d.configured then [] else Cap(NewFindings(d, Already(st.rows, d.project, d.platform), d.findings))
  }

  function Ticket(st: State, d: Delivery, f: Finding, i: nat): State {
    match AnswerTo(d, i)
    case Refused => st
    case Opened(recorded) => State(Recorded(st.rows, RowOf(d, f), recorded), st.tickets + [RowOf(d, f)])
  }

  /** The table has a unique constraint on the whole row; a write that violates it is swallowed like any
      other failed write. */
  function Recorded(rows: seq<Row>, row: Row, recorded: bool): seq<Row> {
    if recorded && row !in rows then rows + [row] else rows
  }

  function TicketAll(st: State, d: Delivery, fs: seq<Finding>): State {
    if fs == [] then st else Ticket(TicketAll(st, d, fs[..|fs| - 1]), d, fs[|fs| - 1], |fs| - 1)
  }

  function OpenedIn(d: Delivery, n: nat): nat {
    if n == 0 then 0 else OpenedIn(d, n - 1) + if AnswerTo(d, n - 1).Opened? then 1 else 0
  }

  function AfterDelivery(st: State, d: Delivery): State { TicketAll(st, d, Attempts(st, d)) }

  function SummaryOf(st: State, d: Delivery): Summary {
    if !d.configured then Summary(0, 0, 0)
    else
      var news := NewFindings(d, Already(st.rows, d.project, d.platform), d.findings);
      NewAreFewer(d, Already(st.rows, d.project, d.platform), d.findings);
      var n := |Attempts(st, d)|;
      OpenedAtMost(d, n);
      Summary(OpenedIn(d, n), |d.findings| - |news|, n - OpenedIn(d, n))
  }

  lemma {:induction false} NewAreFewer(d: Delivery, already: set<Key>, fs: seq<Finding>)
    ensures |NewFindings(d, already, fs)| <= |fs|
  {
    if fs != [] {
      NewAreFewer(d, already, fs[..|fs| - 1]);
    }
  }

  lemma {:induction false} OpenedAtMost(d: Delivery, n: nat)
    ensures OpenedIn(d, n) <= n
  {
    if n > 0 {
      OpenedAtMost(d, n - 1);
    }
  }

  class Ledger {
    var rows: seq<Row>
    var tickets: seq<Row>

    ghost function Contents(): State reads this { State(rows, tickets) }

    constructor ()
      ensures Contents() == State([], [])
    {
      rows, tickets := [], [];
    }

    method RecordTicket(row: Row, recorded: bool)
      modifies this`rows
      ensures rows == Recorded(old(rows), row, recorded)
    {
      if recorded && row !in rows {
        rows := rows + [row];
      }
    }

    method SelectNew(d: Delivery) returns (news: seq<Finding>)
      ensures news == NewFindings(d, Already(rows, d.project, d.platform), d.findings)
    {
      var already := Already(rows, d.project, d.platform);
      news := [];
      for i := 0 to |d.findings|
        invariant news == NewFindings(d, already, d.findings[..i])
      {
        assert d.findings[..i + 1][..i] == d.findings[..i];
        if KeyOf(d.project, d.findings[i]) !in already {
          news := news + [d.findings[i]];
        }
      }
      assert d.findings[..|d.findings|] == d.findings;
    }

    method Deliver(d: Delivery) returns (summary: Summary)
      modifies this
      ensures Contents() == AfterDelivery(old(Contents()), d)
      ensures summary == SummaryOf(old(Contents()), d)
    {
      hide NewFindings, Already, RowOf;
      if !d.configured {
        return Summary(0, 0, 0);
      }
      var news := SelectNew(d);
      NewAreFewer(d, Already(rows, d.project, d.platform), d.findings);
      var skipped := |d.findings| - |news|;
      var fs := if |news| > MAX_TICKETS_PER_DELIVERY then news[..MAX_TICKETS_PER_DELIVERY] else news;
      var created, failed := 0, 0;
      for i := 0 to |fs|
        invariant Contents() == TicketAll(old(Contents()), d, fs[..i])
        invariant created == OpenedIn(d, i) && created + failed == i
      {
        assert fs[..i + 1][..i] == fs[..i];
        match AnswerTo(d, i) {
          case Opened(recorded) =>
            tickets := tickets + [RowOf(d, fs[i])];
            RecordTicket(RowOf(d, fs[i]), recorded);
            created := created + 1;
          case Refused =>
            failed := failed + 1;
        }
      }
      assert fs[..|fs|] == fs;
      summary := Summary(created, skipped, failed);
    }
  }

  // ----- one delivery

  /** Every finding is skipped, attempted or left for the next delivery; never more than 25 are attempted. */
  lemma SummaryAccounts(st: State, d: Delivery)
    requires d.configured
    ensures var s, n := SummaryOf(st, d), |Attempts(st, d)|;
      && s.created + s.failed == n <= MAX_TICKETS_PER_DELIVERY
      && s.skipped + n <= |d.findings|
      && (s.skipped + n < |d.findings| ==> n == MAX_TICKETS_PER_DELIVERY)
      && |AfterDelivery(st, d).tickets| == |st.tickets| + s.created
  {
    hide NewFindings, Already;
    NewAreFewer(d, Already(st.rows, d.project, d.platform), d.findings);
    TicketsOpened(st, d, Attempts(st, d));
  }

  lemma {:induction false} TicketsOpened(st: State, d: Delivery, fs: seq<Finding>)
    ensures |TicketAll(st, d, fs).tickets| == |st.tickets| + OpenedIn(d, |fs|)
  {
    if fs != [] {
      TicketsOpened(st, d, fs[..|fs| - 1]);
    }
  }

  /** The platform was never asked twice for one key of one project, and the ledger knows every ticket. */
  ghost predicate Sound(st: State) { Distinct(st.tickets) && forall t | t in st.tickets :: t in st.rows }

  /** Two opened tickets of this delivery have one key. */
  ghost predicate OpensTwice(d: Delivery, fs: seq<Finding>, i: int, j: int) {
    0 <= i < j < |fs| && AnswerTo(d, i).Opened? && AnswerTo(d, j).Opened? && RowOf(d, fs[i]) == RowOf(d, fs[j])
  }

  ghost predicate NeverTwice(d: Delivery, fs: seq<Finding>) { forall i, j :: !OpensTwice(d, fs, i, j) }

  ghost predicate OpenedAt(d: Delivery, fs: seq<Finding>, i: int, t: Row) {
    0 <= i < |fs| && AnswerTo(d, i).Opened? && RowOf(d, fs[i]) == t
  }

  lemma {:induction false} TicketsAre(st: State, d: Delivery, fs: seq<Finding>, t: Row)
    ensures t in TicketAll(st, d, fs).tickets <==> t in st.tickets || exists i :: OpenedAt(d, fs, i, t)
  {
    hide RowOf;
    if fs != [] {
      var n := |fs| - 1;
      var init := fs[..n];
      TicketsAre(st, d, init, t);
      if i :| OpenedAt(d, fs, i, t) {
        assert i == n || OpenedAt(d, init, i, t);
      }
      if i :| OpenedAt(d, init, i, t) {
        assert OpenedAt(d, fs, i, t);
      }
      assert AnswerTo(d, n).Opened? && RowOf(d, fs[n]) == t ==> OpenedAt(d, fs, n, t);
    }
  }

  /** No opened ticket of this delivery has one already. */
  ghost predicate NoneTicketed(st: State, d: Delivery, fs: seq<Finding>) {
    forall i | 0 <= i < |fs| :: AnswerTo(d, i).Opened? ==> RowOf(d, fs[i]) !in st.tickets
  }

  lemma NoneTicketedSnoc(st: State, d: Delivery, fs: seq<Finding>)
    requires fs != []
    ensures var n := |fs| - 1;
      NoneTicketed(st, d, fs)
      <==> NoneTicketed(st, d, fs[..n]) && !(AnswerTo(d, n).Opened? && RowOf(d, fs[n]) in st.tickets)
  {
    hide RowOf, AnswerTo;
    var n := |fs| - 1;
    assert forall i | 0 <= i < n :: fs[..n][i] == fs[i];
  }

  /** Tickets stay unique exactly when no key is opened twice and none that is opened has a ticket. */
  lemma {:induction false} UniqueTickets(st: State, d: Delivery, fs: seq<Finding>)
    requires Distinct(st.tickets)
    ensures Distinct(TicketAll(st, d, fs).tickets) <==> NeverTwice(d, fs) && NoneTicketed(st, d, fs)
  {
    hide RowOf;
    if fs != [] {
      hide Distinct, NoneTicketed, NeverTwice;
      var n := |fs| - 1;
      var init, before := fs[..n], TicketAll(st, d, fs[..n]);
      UniqueTickets(st, d, init);
      NeverTwiceSnoc(d, fs);
      NoneTicketedSnoc(st, d, fs);
      if AnswerTo(d, n).Opened? {
        DistinctSnoc(before.tickets, RowOf(d, fs[n]));
        TicketsAre(st, d, init, RowOf(d, fs[n]));
      }
    }
  }

  lemma NeverTwiceSnoc(d: Delivery, fs: seq<Finding>)
    requires fs != []
    ensures var n := |fs| - 1;
      NeverTwice(d, fs)
      <==> NeverTwice(d, fs[..n])
           && !(AnswerTo(d, n).Opened? && exists i :: OpenedAt(d, fs[..n], i, RowOf(d, fs[n])))
  {
    hide RowOf;
    var n := |fs| - 1;
    var init := fs[..n];
    if i, j :| OpensTwice(d, init, i, j) {
      assert OpensTwice(d, fs, i, j);
    }
    if AnswerTo(d, n).Opened? {
      if i :| OpenedAt(d, init, i, RowOf(d, fs[n])) {
        assert OpensTwice(d, fs, i, n);
      }
    }
    if i, j :| OpensTwice(d, fs, i, j) {
      if j < n {
        assert OpensTwice(d, init, i, j);
      } else {
        assert OpenedAt(d, init, i, RowOf(d, fs[n]));
      }
    }
  }

  lemma {:induction false} NewMembers(d: Delivery, already: set<Key>, fs: seq<Finding>, f: Finding)
    ensures f in NewFindings(d, already, fs) <==> f in fs && KeyOf(d.project, f) !in already
  {
    hide KeyOf;
    if fs != [] {
      NewMembers(d, already, fs[..|fs| - 1], f);
      assert fs == fs[..|fs| - 1] + [fs[|fs| - 1]];
    }
  }

  lemma AttemptsAreFresh(st: State, d: Delivery)
    ensures forall f | f in Attempts(st, d) :: f in d.findings && RowOf(d, f) !in st.rows
  {
    hide NewFindings;
    var already := Already(st.rows, d.project, d.platform);
    forall f | f in Attempts(st, d) ensures f in d.findings && RowOf(d, f) !in st.rows {
      NewMembers(d, already, d.findings, f);
    }
  }

  /** What a delivery must not do: open one key twice, or open a key that has a ticket. */
  ghost predicate OpensNoneAgain(st: State, d: Delivery) {
    NeverTwice(d, Attempts(st, d)) && NoneTicketed(st, d, Attempts(st, d))
  }

  /** From any ledger, one that lost writes included: a delivery opens no second ticket for a key exactly when
      it opens none twice itself and none that has a ticket already. Nothing in the source rules out two
      findings of one delivery with one key. */
  lemma DeliveryKeepsTicketsUnique(st: State, d: Delivery)
    requires Distinct(st.tickets)
    ensures Distinct(AfterDelivery(st, d).tickets) <==> OpensNoneAgain(st, d)
  {
    hide Attempts, TicketAll, RowOf;
    UniqueTickets(st, d, Attempts(st, d));
  }

  /** The findings of the project that have a ticket on the platform and no ledger row: lost writes. */
  ghost predicate Lost(st: State, row: Row) { row in st.tickets && row !in st.rows }

  /** An attempted finding has a ticket exactly when its ledger write was lost. */
  lemma TicketedAttemptsAreLost(st: State, d: Delivery, f: Finding)
    requires f in Attempts(st, d)
    ensures RowOf(d, f) in st.tickets <==> Lost(st, RowOf(d, f))
  {
    hide Attempts, RowOf;
    AttemptsAreFresh(st, d);
  }

  // ----- which findings are skipped, and what the attempted ones leave behind

  /** The ledger row that a finding of this delivery has or gets, field by field. */
  ghost function OwnRow(d: Delivery, f: Finding): Row {
    Row(d.project, d.platform, Key(d.project, f.category, f.description, multiset(f.affected)))
  }

  /** The positions below `n` whose finding has a row of the delivery's own project and platform. */
  ghost function Ledgered(st: State, d: Delivery, n: nat): set<nat>
    requires n <= |d.findings|
  {
    set i: nat | i < n && OwnRow(d, d.findings[i]) in st.rows
  }

  ghost function Unledgered(st: State, d: Delivery, n: nat): set<nat>
    requires n <= |d.findings|
  {
    set i: nat | i < n && OwnRow(d, d.findings[i]) !in st.rows
  }

  lemma LedgeredSnoc(st: State, d: Delivery, n: nat)
    requires n < |d.findings|
    ensures var has := OwnRow(d, d.findings[n]) in st.rows;
      && |Ledgered(st, d, n + 1)| == |Ledgered(st, d, n)| + (if has then 1 else 0)
      && |Unledgered(st, d, n + 1)| == |Unledgered(st, d, n)| + if has then 0 else 1
  {
    hide OwnRow;
    var has, without, had, lacked :=
      Ledgered(st, d, n + 1), Unledgered(st, d, n + 1), Ledgered(st, d, n), Unledgered(st, d, n);
    assert forall i: nat | i != n :: (i in has <==> i in had) && (i in without <==> i in lacked);
    if OwnRow(d, d.findings[n]) in st.rows {
      assert has == had + {n} && without == lacked;
    } else {
      assert has == had && without == lacked + {n};
    }
  }

  /** A key is known exactly when its row of this project and platform is there. */
  lemma AlreadyIsOwnRow(st: State, d: Delivery, f: Finding)
    ensures KeyOf(d.project, f) in Already(st.rows, d.project, d.platform) <==> OwnRow(d, f) in st.rows
  {
    var r := OwnRow(d, f);
    assert r.key == KeyOf(d.project, f);
    assert forall r': Row | r'.project == d.project && r'.platform == d.platform && r'.key == r.key :: r' == r;
  }

  lemma NewSnoc(st: State, d: Delivery, n: nat)
    requires n < |d.findings|
    ensures var already, f := Already(st.rows, d.project, d.platform), d.findings[n];
      NewFindings(d, already, d.findings[..n + 1])
      == NewFindings(d, already, d.findings[..n]) + if OwnRow(d, f) in st.rows then [] else [f]
  {
    hide Already, KeyOf, OwnRow;
    AlreadyIsOwnRow(st, d, d.findings[n]);
    assert d.findings[..n + 1][..n] == d.findings[..n];
  }

  lemma NothingNew(st: State, d: Delivery)
    ensures NewFindings(d, Already(st.rows, d.project, d.platform), d.findings[..0]) == []
    ensures Unledgered(st, d, 0) == {} && Ledgered(st, d, 0) == {}
  {
    hide Already, OwnRow;
  }

  lemma {:induction false} NewAreUnledgered(st: State, d: Delivery, n: nat)
    requires n <= |d.findings|
    ensures |NewFindings(d, Already(st.rows, d.project, d.platform), d.findings[..n])| == |Unledgered(st, d, n)|
    ensures |Unledgered(st, d, n)| == n - |Ledgered(st, d, n)|
  {
    hide Already, NewFindings, OwnRow, Unledgered, Ledgered;
    if n == 0 {
      NothingNew(st, d);
    } else {
      NewAreUnledgered(st, d, n - 1);
      LedgeredSnoc(st, d, n - 1);
      NewSnoc(st, d, n - 1);
    }
  }

  /** An unledgered finding is where its unledgered predecessors leave it. */
  lemma {:induction false} NewPosition(st: State, d: Delivery, n: nat, i: nat)
    requires i < n <= |d.findings| && OwnRow(d, d.findings[i]) !in st.rows
    ensures var news, at := NewFindings(d, Already(st.rows, d.project, d.platform), d.findings[..n]),
                            |Unledgered(st, d, i)|;
      at < |news| && news[at] == d.findings[i]
  {
    hide Already, NewFindings, OwnRow, Unledgered;
    NewSnoc(st, d, n - 1);
    if i < n - 1 {
      NewPosition(st, d, n - 1, i);
    } else {
      NewAreUnledgered(st, d, i);
    }
  }

  /** From any ledger: the findings skipped are exactly those with a row of their own project and platform, and
      every other one is attempted, in order, unless 25 earlier ones without a row come before it. */
  lemma SkipsExactlyLedgered(st: State, d: Delivery)
    requires d.configured
    ensures var n, fs := |d.findings|, Attempts(st, d);
      && SummaryOf(st, d).skipped == |Ledgered(st, d, n)|
      && |fs| == (if |Unledgered(st, d, n)| < 25 then |Unledgered(st, d, n)| else 25)
      && forall i: nat | i < n && OwnRow(d, d.findings[i]) !in st.rows && |Unledgered(st, d, i)| < 25 ::
           |Unledgered(st, d, i)| < |fs| && fs[|Unledgered(st, d, i)|] == d.findings[i]
  {
    hide Already, OwnRow, NewFindings, Unledgered, Ledgered;
    NewAreUnledgered(st, d, |d.findings|);
    assert d.findings[..|d.findings|] == d.findings;
    forall i: nat | i < |d.findings| && OwnRow(d, d.findings[i]) !in st.rows && |Unledgered(st, d, i)| < 25
      ensures |Unledgered(st, d, i)| < |Attempts(st, d)|
      ensures Attempts(st, d)[|Unledgered(st, d, i)|] == d.findings[i]
    {
      NewPosition(st, d, |d.findings|, i);
    }
  }

  lemma UnconfiguredDoesNothing(st: State, d: Delivery)
    requires !d.configured
    ensures AfterDelivery(st, d) == st && SummaryOf(st, d) == Summary(0, 0, 0)
  {
  }

  ghost predicate OpenedFor(d: Delivery, fs: seq<Finding>, i: int, recorded: bool, r: Row) {
    0 <= i < |fs| && i < |d.answers| && r == OwnRow(d, fs[i])
    && (d.answers[i] == Opened(true) || (!recorded && d.answers[i] == Opened(false)))
  }

  lemma {:induction false} TicketAllLeaves(st: State, d: Delivery, fs: seq<Finding>, r: Row)
    ensures var after := TicketAll(st, d, fs);
      && (r in after.tickets <==> r in st.tickets || exists i :: OpenedFor(d, fs, i, false, r))
      && (r in after.rows <==> r in st.rows || exists i :: OpenedFor(d, fs, i, true, r))
  {
    if fs != [] {
      var n := |fs| - 1;
      var init := fs[..n];
      TicketAllLeaves(st, d, init, r);
      OpenedForSnoc(d, fs, true, r);
      OpenedForSnoc(d, fs, false, r);
      hide OpenedFor;
      assert RowOf(d, fs[n]) == OwnRow(d, fs[n]);
      if OpenedFor(d, fs, n, true, r) || OpenedFor(d, fs, n, false, r) {
        OpenedForAnswer(d, fs, n, r);
      }
      OpenedForAnswer(d, fs, n, OwnRow(d, fs[n]));
    }
  }

  lemma OpenedForAnswer(d: Delivery, fs: seq<Finding>, i: nat, r: Row)
    requires i < |fs|
    ensures OpenedFor(d, fs, i, false, r) <==> AnswerTo(d, i).Opened? && r == OwnRow(d, fs[i])
    ensures OpenedFor(d, fs, i, true, r) <==> AnswerTo(d, i) == Opened(true) && r == OwnRow(d, fs[i])
  {
  }

  lemma OpenedForSnoc(d: Delivery, fs: seq<Finding>, recorded: bool, r: Row)
    requires fs != []
    ensures var n := |fs| - 1;
      (exists i :: OpenedFor(d, fs, i, recorded, r))
      <==> OpenedFor(d, fs, n, recorded, r) || exists i :: OpenedFor(d, fs[..n], i, recorded, r)
  {
    hide OwnRow;
    var n := |fs| - 1;
    if i :| OpenedFor(d, fs, i, recorded, r) {
      assert i == n || OpenedFor(d, fs[..n], i, recorded, r);
    }
    if i :| OpenedFor(d, fs[..n], i, recorded, r) {
      assert OpenedFor(d, fs, i, recorded, r);
    }
  }

  /** A delivery opens tickets for exactly the attempted findings that the platform accepts, each on its own
      platform and under its own key, and adds exactly the rows whose write succeeds. */
  lemma DeliveryLeaves(st: State, d: Delivery, r: Row)
    ensures var after, fs := AfterDelivery(st, d), Attempts(st, d);
      && (r in after.tickets <==> r in st.tickets || exists i :: OpenedFor(d, fs, i, false, r))
      && (r in after.rows <==> r in st.rows || exists i :: OpenedFor(d, fs, i, true, r))
  {
    hide Attempts, OpenedFor;
    TicketAllLeaves(st, d, Attempts(st, d), r);
  }

  // ----- runs

  ghost predicate AllRecorded(d: Delivery) { forall a | a in d.answers && a.Opened? :: a.recorded }

  ghost predicate KeysDiffer(project: int, fs: seq<Finding>) {
    forall i, j | 0 <= i < j < |fs| :: KeyOf(project, fs[i]) != KeyOf(project, fs[j])
  }

  ghost predicate DistinctKeys(d: Delivery) { KeysDiffer(d.project, d.findings) }

  function Run(ds: seq<Delivery>): State {
    if ds == [] then State([], []) else AfterDelivery(Run(ds[..|ds| - 1]), ds[|ds| - 1])
  }

  lemma {:induction false} RowsCover(st: State, d: Delivery, fs: seq<Finding>)
    requires AllRecorded(d) && forall t | t in st.tickets :: t in st.rows
    ensures forall t | t in TicketAll(st, d, fs).tickets :: t in TicketAll(st, d, fs).rows
  {
    hide RowOf;
    if fs != [] {
      RowsCover(st, d, fs[..|fs| - 1]);
    }
  }

  lemma {:induction false} NewKeepOrder(d: Delivery, already: set<Key>, fs: seq<Finding>)
    requires KeysDiffer(d.project, fs)
    ensures KeysDiffer(d.project, NewFindings(d, already, fs))
  {
    hide KeyOf;
    if fs != [] {
      var n := |fs| - 1;
      var init := fs[..n];
      NewKeepOrder(d, already, init);
      forall f | f in NewFindings(d, already, init) ensures KeyOf(d.project, f) != KeyOf(d.project, fs[n]) {
        NewMembers(d, already, init, f);
        var i :| 0 <= i < n && init[i] == f;
        assert fs[i] == f;
      }
      DifferSnoc(d.project, NewFindings(d, already, init), fs[n]);
    }
  }

  lemma DifferSnoc(project: int, fs: seq<Finding>, f: Finding)
    requires KeysDiffer(project, fs) && forall g | g in fs :: KeyOf(project, g) != KeyOf(project, f)
    ensures KeysDiffer(project, fs + [f]) && KeysDiffer(project, fs + [])
  {
    hide KeyOf;
    assert fs + [] == fs;
    assert forall i | 0 <= i < |fs| :: (fs + [f])[i] == fs[i] && fs[i] in fs;
  }

  lemma DistinctNeverTwice(st: State, d: Delivery)
    requires DistinctKeys(d)
    ensures NeverTwice(d, Attempts(st, d))
  {
    hide KeyOf, NewFindings, Already;
    NewKeepOrder(d, Already(st.rows, d.project, d.platform), d.findings);
    var fs := Attempts(st, d);
    forall i, j ensures !OpensTwice(d, fs, i, j) {
      if 0 <= i < j < |fs| {
        assert KeyOf(d.project, fs[i]) != KeyOf(d.project, fs[j]);
      }
    }
  }

  lemma SoundDelivery(st: State, d: Delivery)
    requires Sound(st)
    ensures NoneTicketed(st, d, Attempts(st, d))
  {
    hide Attempts, RowOf, Distinct;
    AttemptsAreFresh(st, d);
  }

  lemma {:induction false} TicketsOnlyGrow(st: State, d: Delivery, fs: seq<Finding>)
    ensures st.tickets <= TicketAll(st, d, fs).tickets
  {
    hide RowOf;
    if fs != [] {
      TicketsOnlyGrow(st, d, fs[..|fs| - 1]);
    }
  }

  /** Delivery `k` of the run opens a key twice, or one that has a ticket. */
  ghost predicate OpensAgainAt(ds: seq<Delivery>, k: int) {
    0 <= k < |ds| && !OpensNoneAgain(Run(ds[..k]), ds[k])
  }

  /** Over any sequence of deliveries, refusals and lost writes included, each project's key has at most one
      ticket per platform exactly when no delivery opens a key twice or one that has a ticket. */
  lemma {:induction false} UniqueExactlyWhenNoneOpensAgain(ds: seq<Delivery>)
    ensures Distinct(Run(ds).tickets) <==> forall k :: !OpensAgainAt(ds, k)
  {
    hide AfterDelivery, OpensNoneAgain;
    if ds != [] {
      hide Distinct;
      var n := |ds| - 1;
      var init, d := ds[..n], ds[n];
      UniqueExactlyWhenNoneOpensAgain(init);
      if Distinct(Run(init).tickets) {
        DeliveryKeepsTicketsUnique(Run(init), d);
      } else {
        DeliveryKeepsDuplicates(Run(init), d);
      }
      assert OpensAgainAt(ds, n) <==> !OpensNoneAgain(Run(init), d);
      forall k | 0 <= k < n ensures OpensAgainAt(ds, k) <==> OpensAgainAt(init, k) {
        assert ds[..k] == init[..k];
      }
    }
  }

  lemma DeliveryKeepsDuplicates(st: State, d: Delivery)
    requires !Distinct(st.tickets)
    ensures !Distinct(AfterDelivery(st, d).tickets)
  {
    hide Attempts, TicketAll;
    TicketsOnlyGrow(st, d, Attempts(st, d));
  }

  /** Over any sequence of deliveries with any refusals, when the keys of each delivery differ and no ledger
      write is lost, a project's key has at most one ticket per platform. */
  lemma {:induction false} AtMostOneTicket(ds: seq<Delivery>)
    requires forall d | d in ds :: DistinctKeys(d) && AllRecorded(d)
    ensures Sound(Run(ds))
  {
    hide Attempts, TicketAll, NeverTwice, DistinctKeys, AllRecorded;
    if ds != [] {
      var init, d := ds[..|ds| - 1], ds[|ds| - 1];
      assert forall d' :: d' in init ==> d' in ds;
      AtMostOneTicket(init);
      DistinctNeverTwice(Run(init), d);
      SoundDelivery(Run(init), d);
      DeliveryKeepsTicketsUnique(Run(init), d);
      RowsCover(Run(init), d, Attempts(Run(init), d));
    }
  }

  lemma {:induction false} RowsStayUnique(st: State, d: Delivery, fs: seq<Finding>)
    requires Distinct(st.rows)
    ensures Distinct(TicketAll(st, d, fs).rows)
  {
    if fs != [] {
      var before, f := TicketAll(st, d, fs[..|fs| - 1]), fs[|fs| - 1];
      hide Distinct, RowOf;
      RowsStayUnique(st, d, fs[..|fs| - 1]);
      DistinctSnoc(before.rows, RowOf(d, f));
    }
  }

  // ----- draining

  function RowsOf(d: Delivery, fs: seq<Finding>): seq<Row> { seq(|fs|, i requires 0 <= i < |fs| => RowOf(d, fs[i])) }

  function Repeat(d: Delivery, k: nat): seq<Delivery> { seq(k, _ => d) }

  function Min(a: nat, b: nat): nat { if a < b then a else b }

  lemma {:induction false} AllOpened(st: State, d: Delivery, fs: seq<Finding>)
    requires forall i | 0 <= i < |fs| :: AnswerTo(d, i) == Opened(true)
    requires KeysDiffer(d.project, fs) && forall i | 0 <= i < |fs| :: RowOf(d, fs[i]) !in st.rows
    ensures TicketAll(st, d, fs) == State(st.rows + RowsOf(d, fs), st.tickets + RowsOf(d, fs))
  {
    if fs == [] {
      assert st.rows + [] == st.rows && st.tickets + [] == st.tickets;
    } else {
      hide KeyOf;
      var n := |fs| - 1;
      AllOpened(st, d, fs[..n]);
      assert RowOf(d, fs[n]) !in RowsOf(d, fs[..n]);
      assert RowsOf(d, fs) == RowsOf(d, fs[..n]) + [RowOf(d, fs[n])];
    }
  }

  lemma {:induction false} NewAfterPrefix(d: Delivery, already: set<Key>, fs: seq<Finding>, m: nat)
    requires m <= |fs|
    requires forall i | 0 <= i < |fs| :: KeyOf(d.project, fs[i]) in already <==> i < m
    ensures NewFindings(d, already, fs) == fs[m..]
  {
    hide KeyOf;
    if fs != [] {
      var n := |fs| - 1;
      if m <= n {
        NewAfterPrefix(d, already, fs[..n], m);
        assert fs[m..] == fs[..n][m..] + [fs[n]];
      } else {
        NewAfterPrefix(d, already, fs[..n], n);
      }
    }
  }

  lemma AlreadyPrefix(d: Delivery, m: nat, i: nat)
    requires m <= |d.findings| && i < |d.findings| && DistinctKeys(d)
    ensures KeyOf(d.project, d.findings[i]) in Already(RowsOf(d, d.findings[..m]), d.project, d.platform) <==> i < m
  {
    hide KeyOf;
    var rows, fs := RowsOf(d, d.findings[..m]), d.findings;
    if i < m {
      assert rows[i] == RowOf(d, fs[i]);
    } else {
      forall r | r in rows ensures r.key != KeyOf(d.project, fs[i]) {
        var j :| 0 <= j < |rows| && rows[j] == r;
        assert rows[j] == RowOf(d, fs[j]);
      }
    }
  }

  /** Delivering the same fresh findings again and again, every call succeeding, tickets them in order,
      25 at a time: after `k` deliveries exactly the first min(n, 25k) have a ticket, and nothing else. */
  lemma {:induction false} RepeatedDeliveryDrains(d: Delivery, k: nat)
    requires d.configured && DistinctKeys(d)
    requires forall i | 0 <= i < MAX_TICKETS_PER_DELIVERY :: AnswerTo(d, i) == Opened(true)
    ensures var first := RowsOf(d, d.findings[..Min(|d.findings|, MAX_TICKETS_PER_DELIVERY * k)]);
      Run(Repeat(d, k)) == State(first, first)
  {
    hide TicketAll, NewFindings, Already, RowsOf, KeyOf;
    if k == 0 {
      NoRows(d);
    } else {
      RepeatedDeliveryDrains(d, k - 1);
      assert Repeat(d, k)[..k - 1] == Repeat(d, k - 1);
      var n := |d.findings|;
      var m := Min(n, MAX_TICKETS_PER_DELIVERY * (k - 1));
      var st := Run(Repeat(d, k - 1));
      forall i | 0 <= i < n
        ensures KeyOf(d.project, d.findings[i]) in Already(st.rows, d.project, d.platform) <==> i < m
      {
        AlreadyPrefix(d, m, i);
      }
      NewAfterPrefix(d, Already(st.rows, d.project, d.platform), d.findings, m);
      var fs := Attempts(st, d);
      forall i | 0 <= i < |fs| ensures RowOf(d, fs[i]) !in st.rows {
        assert fs[i] in fs;
        AttemptsAreFresh(st, d);
      }
      NewKeepOrder(d, Already(st.rows, d.project, d.platform), d.findings);
      AllOpened(st, d, fs);
      var m' := Min(n, MAX_TICKETS_PER_DELIVERY * k);
      assert Attempts(st, d) == d.findings[m..m'];
      RowsJoin(d, m, m');
    }
  }

  lemma NoRows(d: Delivery)
    ensures RowsOf(d, d.findings[..0]) == []
  {
  }

  lemma RowsJoin(d: Delivery, m: nat, m': nat)
    requires m <= m' <= |d.findings|
    ensures RowsOf(d, d.findings[..m']) == RowsOf(d, d.findings[..m]) + RowsOf(d, d.findings[m..m'])
  {
  }

  // ----- what the ledger does not prevent

  /** Two findings of one delivery with one key get two tickets. */
  lemma DuplicateInOneDelivery(f: Finding, project: int, platform: Platform)
    ensures var d := Delivery(project, platform, true, [f, f], [Opened(true), Opened(true)]);
      !Distinct(Run([d]).tickets)
  {
    hide TicketAll, RowOf;
    var d := Delivery(project, platform, true, [f, f], [Opened(true), Opened(true)]);
    var st := State([], []);
    assert [d][..0] == [];
    NewAfterPrefix(d, {}, d.findings, 0);
    assert Already([], project, platform) == {};
    assert Attempts(st, d) == [f, f];
    assert OpensTwice(d, [f, f], 0, 1);
    DeliveryKeepsTicketsUnique(st, d);
  }

  lemma OneAttempt(st: State, d: Delivery, f: Finding)
    ensures TicketAll(st, d, [f]) == Ticket(st, d, f, 0)
  {
    assert [f][..0] == [];
  }

  /** When every call succeeds, tickets stay unique exactly when the attempted findings have different keys
      and none of them lost a ledger write. */
  lemma UniqueExactlyWhenKeysDiffer(st: State, d: Delivery)
    requires Distinct(st.tickets) && forall i | 0 <= i < MAX_TICKETS_PER_DELIVERY :: AnswerTo(d, i).Opened?
    ensures Distinct(AfterDelivery(st, d).tickets)
      <==> KeysDiffer(d.project, Attempts(st, d)) && forall f | f in Attempts(st, d) :: !Lost(st, RowOf(d, f))
  {
    hide KeyOf, NewFindings, Already, AfterDelivery, AnswerTo;
    DeliveryKeepsTicketsUnique(st, d);
    var fs := Attempts(st, d);
    AttemptsAreFresh(st, d);
    assert NoneTicketed(st, d, fs) <==> forall f | f in fs :: RowOf(d, f) !in st.tickets;
    if NeverTwice(d, fs) {
      forall i, j | 0 <= i < j < |fs| ensures KeyOf(d.project, fs[i]) != KeyOf(d.project, fs[j]) {
        assert !OpensTwice(d, fs, i, j);
      }
    }
    if KeysDiffer(d.project, fs) {
      forall i, j ensures !OpensTwice(d, fs, i, j) {
        if 0 <= i < j < |fs| {
          assert KeyOf(d.project, fs[i]) != KeyOf(d.project, fs[j]);
        }
      }
    }
  }

  lemma RunTwice(d: Delivery)
    ensures Run([d]) == AfterDelivery(State([], []), d)
    ensures Run([d, d]) == AfterDelivery(Run([d]), d)
  {
    hide AfterDelivery;
    var one, two := [d], [d, d];
    assert one[..|one| - 1] == [] && two[..|two| - 1] == one;
    assert Run(one[..|one| - 1]) == State([], []);
  }

  /** A ticket whose ledger write was lost is opened again by the next delivery. */
  lemma LostWriteOpensAgain(f: Finding, project: int, platform: Platform)
    ensures var d := Delivery(project, platform, true, [f], [Opened(false)]);
      !Distinct(Run([d, d]).tickets)
  {
    hide RowOf, TicketAll;
    var d := Delivery(project, platform, true, [f], [Opened(false)]);
    RunTwice(d);
    assert Already([], project, platform) == {};
    NewAfterPrefix(d, {}, d.findings, 0);
    assert Attempts(State([], []), d) == [f];
    OneAttempt(State([], []), d, f);
    var once := Run([d]);
    assert AnswerTo(d, 0) == Opened(false);
    assert [] + [RowOf(d, f)] == [RowOf(d, f)];
    assert once == State([], [RowOf(d, f)]);
    assert Attempts(once, d) == [f];
    assert !NoneTicketed(once, d, [f]) by {
      assert [f][0] == f;
    }
    DeliveryKeepsTicketsUnique(once, d);
  }
}
