/** The vulnerability history of a project: which vulnerabilities each scan discovers, remediates and
    reopens. Scans come in chronological order. */
module ProjectAudit {
  import opened Collections
  import opened Wrappers

  datatype Vuln = Vuln(id: string, ip: string)

  /** One report: the CVEs of its nodes, and the affected addresses of its CISA advisory findings. */
  datatype Scan = Scan(nodeVulns: seq<Vuln>, advisories: seq<Vuln>)

  datatype Status = Active | Remediated

  datatype Kind = Discovery | Remediation | Reopening

  datatype Event = Event(kind: Kind, key: string, scan: nat)

  datatype Snapshot = Snapshot(active: nat, remediated: nat, discovered: nat)

  /** `order` is the insertion order of the tracker dictionary. */
  datatype Audit = Audit(order: seq<string>, tracker: map<string, Status>, events: seq<Event>, snapshots: seq<Snapshot>)

  const START := Audit([], map[], [], [])

  function KeyOf(v: Vuln): string { v.id + "|" + v.ip }

  /** A key names one vulnerability on one address as long as addresses have no bar; with one, two different pairs
      can share a key. */
  lemma KeysTellApart(v: Vuln, w: Vuln)
    requires '|' !in v.ip && '|' !in w.ip
    ensures KeyOf(v) == KeyOf(w) <==> v.id == w.id && v.ip == w.ip
  {
    if KeyOf(v) == KeyOf(w) {
      BarAt(v);
      BarAt(w);
      var n := |KeyOf(v)|;
      SameTail(v, w);
      SameTail(w, v);
      assert KeyOf(v)[n - |v.ip|..] == v.ip && KeyOf(w)[n - |w.ip|..] == w.ip;
      assert KeyOf(v)[..n - 1 - |v.ip|] == v.id && KeyOf(w)[..n - 1 - |w.ip|] == w.id;
    }
  }

  lemma SameTail(v: Vuln, w: Vuln)
    requires '|' !in w.ip && KeyOf(v) == KeyOf(w)
    ensures |v.ip| >= |w.ip|
  {
    BarAt(v);
    BarAt(w);
    var k := KeyOf(w);
    assert forall i | |w.id| < i < |k| :: k[i] == w.ip[i - |w.id| - 1];
  }

  lemma BarAt(v: Vuln)
    ensures var k := KeyOf(v); |k| == |v.id| + 1 + |v.ip| && k[|k| - 1 - |v.ip|] == '|'
  {
  }

  lemma BarsConfuse()
    ensures KeyOf(Vuln("a|b", "c")) == KeyOf(Vuln("a", "b|c"))
  {
  }

  /** A scan has a key exactly when a node or an advisory names its id and address. */
  lemma PresentByFields(s: Scan, k: string)
    ensures k in Keys(s.nodeVulns) <==> exists v :: v in s.nodeVulns && k == v.id + "|" + v.ip
    ensures k in Keys(s.advisories) <==> exists v :: v in s.advisories && k == v.id + "|" + v.ip
    ensures k in Present(s) <==> exists v :: (v in s.nodeVulns || v in s.advisories) && k == v.id + "|" + v.ip
  {
    hide KeyOf;
    forall v ensures KeyOf(v) == v.id + "|" + v.ip {
      KeyIs(v);
    }
  }

  lemma KeyIs(v: Vuln)
    ensures KeyOf(v) == v.id + "|" + v.ip
  {
  }

  // ----- one vulnerability, and the closing of one tracked key

  function Discover(a: Audit, key: string, scan: nat): Audit {
    a.(order := a.order + [key], tracker := a.tracker[key := Active],
       events := a.events + [Event(Discovery, key, scan)])
  }

  function SeeNode(a: Audit, key: string, scan: nat): Audit {
    if key !in a.tracker then Discover(a, key, scan)
    else if a.tracker[key] == Remediated then
      a.(tracker := a.tracker[key := Active], events := a.events + [Event(Reopening, key, scan)])
    else a
  }

  function SeeAdvisory(a: Audit, key: string, scan: nat): Audit {
    if key !in a.tracker then Discover(a, key, scan) else a
  }

  function CloseIfAbsent(a: Audit, key: string, present: set<string>, scan: nat): Audit {
    if key in a.tracker && a.tracker[key] == Active && key !in present then
      a.(tracker := a.tracker[key := Remediated], events := a.events + [Event(Remediation, key, scan)])
    else a
  }

  // ----- one scan

  function SeeNodes(a: Audit, vs: seq<Vuln>, scan: nat): Audit {
    if vs == [] then a else SeeNode(SeeNodes(a, vs[..|vs| - 1], scan), KeyOf(vs[|vs| - 1]), scan)
  }

  function SeeAdvisories(a: Audit, vs: seq<Vuln>, scan: nat): Audit {
    if vs == [] then a else SeeAdvisory(SeeAdvisories(a, vs[..|vs| - 1], scan), KeyOf(vs[|vs| - 1]), scan)
  }

  function CloseAbsent(a: Audit, keys: seq<string>, present: set<string>, scan: nat): Audit {
    if keys == [] then a
    else CloseIfAbsent(CloseAbsent(a, keys[..|keys| - 1], present, scan), keys[|keys| - 1], present, scan)
  }

  function Keys(vs: seq<Vuln>): set<string> { set v | v in vs :: KeyOf(v) }

  function Present(s: Scan): set<string> { Keys(s.nodeVulns) + Keys(s.advisories) }

  function With(tracker: map<string, Status>, status: Status): set<string> {
    set k | k in tracker && tracker[k] == status
  }

  function Tracked(a: Audit, s: Scan): Audit {
    var n := |a.snapshots|;
    var seen := SeeAdvisories(SeeNodes(a, s.nodeVulns, n), s.advisories, n);
    CloseAbsent(seen, seen.order, Present(s), n)
  }

  function AfterScan(a: Audit, s: Scan): Audit {
    var b := Tracked(a, s);
    b.(snapshots := a.snapshots + [Snapshot(|Present(s)|, |With(b.tracker, Remediated)|, |b.tracker|)])
  }

  function AuditOf(scans: seq<Scan>): Audit {
    if scans == [] then START else AfterScan(AuditOf(scans[..|scans| - 1]), scans[|scans| - 1])
  }

  // ----- the program

  class Auditor {
    var order: seq<string>
    var tracker: map<string, Status>
    var events: seq<Event>
    var snapshots: seq<Snapshot>

    ghost function State(): Audit reads this { Audit(order, tracker, events, snapshots) }

    constructor ()
      ensures State() == START
    {
      order, tracker, events, snapshots := [], map[], [], [];
    }

    method NoteNode(key: string, scan: nat)
      modifies this
      ensures State() == SeeNode(old(State()), key, scan)
    {
      if key !in tracker {
        order, tracker := order + [key], tracker[key := Active];
        events := events + [Event(Discovery, key, scan)];
      } else if tracker[key] == Remediated {
        tracker := tracker[key := Active];
        events := events + [Event(Reopening, key, scan)];
      }
    }

    method NoteAdvisory(key: string, scan: nat)
      modifies this
      ensures State() == SeeAdvisory(old(State()), key, scan)
    {
      if key !in tracker {
        order, tracker := order + [key], tracker[key := Active];
        events := events + [Event(Discovery, key, scan)];
      }
    }

    method NoteVulns(s: Scan, scan: nat) returns (present: set<string>)
      modifies this
      ensures State() == SeeAdvisories(SeeNodes(old(State()), s.nodeVulns, scan), s.advisories, scan)
      ensures present == Present(s)
    {
      hide SeeNode, SeeAdvisory, KeyOf;
      present := {};
      for i := 0 to |s.nodeVulns|
        invariant State() == SeeNodes(old(State()), s.nodeVulns[..i], scan)
        invariant present == Keys(s.nodeVulns[..i])
      {
        assert s.nodeVulns[..i + 1] == s.nodeVulns[..i] + [s.nodeVulns[i]];
        assert s.nodeVulns[..i + 1][..i] == s.nodeVulns[..i];
        present := present + {KeyOf(s.nodeVulns[i])};
        NoteNode(KeyOf(s.nodeVulns[i]), scan);
      }
      assert s.nodeVulns[..|s.nodeVulns|] == s.nodeVulns;
      ghost var mid := State();
      for i := 0 to |s.advisories|
        invariant State() == SeeAdvisories(mid, s.advisories[..i], scan)
        invariant present == Keys(s.nodeVulns) + Keys(s.advisories[..i])
      {
        assert s.advisories[..i + 1] == s.advisories[..i] + [s.advisories[i]];
        assert s.advisories[..i + 1][..i] == s.advisories[..i];
        present := present + {KeyOf(s.advisories[i])};
        NoteAdvisory(KeyOf(s.advisories[i]), scan);
      }
      assert s.advisories[..|s.advisories|] == s.advisories;
    }

    method DetectRemediated(present: set<string>, scan: nat)
      modifies this
      ensures State() == CloseAbsent(old(State()), old(order), present, scan)
    {
      var keys := order;
      for i := 0 to |keys|
        invariant State() == CloseAbsent(old(State()), keys[..i], present, scan)
      {
        assert keys[..i + 1][..i] == keys[..i];
        var key := keys[i];
        if key in tracker && tracker[key] == Active && key !in present {
          tracker := tracker[key := Remediated];
          events := events + [Event(Remediation, key, scan)];
        }
      }
      assert keys[..|keys|] == keys;
    }

    method AddScan(s: Scan)
      modifies this
      ensures State() == AfterScan(old(State()), s)
    {
      hide SeeNodes, SeeAdvisories, CloseAbsent, Present, With;
      ghost var before := State();
      var n := |snapshots|;
      var present := NoteVulns(s, n);
      DetectRemediated(present, n);
      SnapshotsStay(before, s, n);
      snapshots := snapshots + [Snapshot(|present|, |With(tracker, Remediated)|, |tracker|)];
    }
  }

  method GenerateAudit(scans: seq<Scan>) returns (auditor: Auditor)
    ensures fresh(auditor) && auditor.State() == AuditOf(scans)
  {
    hide AfterScan;
    auditor := new Auditor();
    for i := 0 to |scans|
      invariant fresh(auditor) && auditor.State() == AuditOf(scans[..i])
    {
      assert scans[..i + 1][..i] == scans[..i];
      auditor.AddScan(scans[i]);
    }
    assert scans[..|scans|] == scans;
  }

  lemma {:induction false} NodesKeepSnapshots(a: Audit, vs: seq<Vuln>, n: nat)
    ensures SeeNodes(a, vs, n).snapshots == a.snapshots
    ensures SeeAdvisories(a, vs, n).snapshots == a.snapshots
  {
    hide KeyOf;
    if vs != [] {
      NodesKeepSnapshots(a, vs[..|vs| - 1], n);
    }
  }

  lemma {:induction false} ClosingKeepsSnapshots(a: Audit, keys: seq<string>, present: set<string>, n: nat)
    ensures CloseAbsent(a, keys, present, n).snapshots == a.snapshots
    ensures CloseAbsent(a, keys, present, n).order == a.order
    ensures CloseAbsent(a, keys, present, n).tracker.Keys == a.tracker.Keys
  {
    if keys != [] {
      ClosingKeepsSnapshots(a, keys[..|keys| - 1], present, n);
    }
  }

  lemma SnapshotsStay(a: Audit, s: Scan, n: nat)
    ensures var seen := SeeAdvisories(SeeNodes(a, s.nodeVulns, n), s.advisories, n);
      CloseAbsent(seen, seen.order, Present(s), n).snapshots == a.snapshots
  {
    hide SeeNodes, SeeAdvisories, CloseAbsent;
    NodesKeepSnapshots(a, s.nodeVulns, n);
    var mid := SeeNodes(a, s.nodeVulns, n);
    NodesKeepSnapshots(mid, s.advisories, n);
    var seen := SeeAdvisories(mid, s.advisories, n);
    ClosingKeepsSnapshots(seen, seen.order, Present(s), n);
  }

  // ----- the life of one key

  /** What the audit knows about one key: its status, and its events as kinds with scan numbers. */
  datatype Life = Life(status: Option<Status>, events: seq<Event>)

  function EventsOf(events: seq<Event>, k: string): seq<Event> {
    if events == [] then []
    else
      var e := events[|events| - 1];
      EventsOf(events[..|events| - 1], k) + if e.key == k then [e] else []
  }

  function LifeOf(a: Audit, k: string): Life {
    Life(if k in a.tracker then Some(a.tracker[k]) else None, EventsOf(a.events, k))
  }

  function Enter(l: Life, status: Status, kind: Kind, k: string, n: nat): Life {
    Life(Some(status), l.events + [Event(kind, k, n)])
  }

  /** The whole step of one key in one scan. */
  function LiveThrough(l: Life, k: string, inNode: bool, inAdvisory: bool, n: nat): Life {
    match l.status
    case None => if inNode || inAdvisory then Enter(l, Active, Discovery, k, n) else l
    case Some(Active) => if inNode || inAdvisory then l else Enter(l, Remediated, Remediation, k, n)
    case Some(Remediated) => if inNode then Enter(l, Active, Reopening, k, n) else l
  }

  lemma EventsSnoc(events: seq<Event>, e: Event, k: string)
    ensures EventsOf(events + [e], k) == EventsOf(events, k) + if e.key == k then [e] else []
  {
    assert (events + [e])[..|events|] == events;
  }

  function NodeLife(l: Life, k: string, n: nat): Life {
    if l.status == None then Enter(l, Active, Discovery, k, n)
    else if l.status == Some(Remediated) then Enter(l, Active, Reopening, k, n)
    else l
  }

  lemma NodeStep(a: Audit, key: string, n: nat, k: string)
    ensures LifeOf(SeeNode(a, key, n), k) == if key == k then NodeLife(LifeOf(a, k), k, n) else LifeOf(a, k)
  {
    hide EventsOf;
    EventsSnoc(a.events, Event(Discovery, key, n), k);
    EventsSnoc(a.events, Event(Reopening, key, n), k);
  }

  lemma AdvisoryStep(a: Audit, key: string, n: nat, k: string)
    ensures LifeOf(SeeAdvisory(a, key, n), k)
      == if key == k && k !in a.tracker then Enter(LifeOf(a, k), Active, Discovery, k, n) else LifeOf(a, k)
  {
    hide EventsOf;
    EventsSnoc(a.events, Event(Discovery, key, n), k);
  }

  lemma CloseStep(a: Audit, key: string, present: set<string>, n: nat, k: string)
    ensures LifeOf(CloseIfAbsent(a, key, present, n), k)
      == if key == k && k !in present && LifeOf(a, k).status == Some(Active)
         then Enter(LifeOf(a, k), Remediated, Remediation, k, n) else LifeOf(a, k)
  {
    hide EventsOf;
    EventsSnoc(a.events, Event(Remediation, key, n), k);
  }

  lemma {:induction false} NodesStep(a: Audit, vs: seq<Vuln>, n: nat, k: string)
    ensures LifeOf(SeeNodes(a, vs, n), k) == if k in Keys(vs) then NodeLife(LifeOf(a, k), k, n) else LifeOf(a, k)
  {
    hide LifeOf, SeeNode, KeyOf;
    if vs != [] {
      var init, v := vs[..|vs| - 1], vs[|vs| - 1];
      NodesStep(a, init, n, k);
      NodeStep(SeeNodes(a, init, n), KeyOf(v), n, k);
      KeysSnoc(vs, k);
    }
  }

  lemma KeysSnoc(vs: seq<Vuln>, k: string)
    requires vs != []
    ensures k in Keys(vs) <==> k in Keys(vs[..|vs| - 1]) || k == KeyOf(vs[|vs| - 1])
  {
    hide KeyOf;
    var init, v := vs[..|vs| - 1], vs[|vs| - 1];
    assert vs == init + [v];
    assert forall w :: w in vs <==> w in init || w == v;
  }

  lemma {:induction false} AdvisoriesStep(a: Audit, vs: seq<Vuln>, n: nat, k: string)
    ensures LifeOf(SeeAdvisories(a, vs, n), k)
      == if k in Keys(vs) && LifeOf(a, k).status == None then Enter(LifeOf(a, k), Active, Discovery, k, n)
         else LifeOf(a, k)
  {
    hide SeeAdvisory, KeyOf, EventsOf;
    if vs != [] {
      var init, v := vs[..|vs| - 1], vs[|vs| - 1];
      AdvisoriesStep(a, init, n, k);
      AdvisoryStep(SeeAdvisories(a, init, n), KeyOf(v), n, k);
      KeysSnoc(vs, k);
    }
  }

  lemma {:induction false} ClosingStep(a: Audit, keys: seq<string>, present: set<string>, n: nat, k: string)
    ensures LifeOf(CloseAbsent(a, keys, present, n), k)
      == if k in keys && k !in present && LifeOf(a, k).status == Some(Active)
         then Enter(LifeOf(a, k), Remediated, Remediation, k, n) else LifeOf(a, k)
  {
    hide LifeOf, CloseIfAbsent;
    if keys != [] {
      var init, key := keys[..|keys| - 1], keys[|keys| - 1];
      ClosingStep(a, init, present, n, k);
      CloseStep(CloseAbsent(a, init, present, n), key, present, n, k);
      assert keys == init + [key];
    }
  }

  // ----- counting

  function Count(events: seq<Event>, kind: Kind): nat {
    if events == [] then 0
    else Count(events[..|events| - 1], kind) + if events[|events| - 1].kind == kind then 1 else 0
  }

  /** The order lists the tracked keys once each; discoveries are the tracked keys, and remediations
      less reopenings are the keys that are remediated. */
  ghost predicate Booked(a: Audit) {
    && (forall k :: k in a.order <==> k in a.tracker)
    && Count(a.events, Discovery) == |a.tracker|
    && Count(a.events, Remediation) - Count(a.events, Reopening) == |With(a.tracker, Remediated)|
  }

  lemma CountSnoc(events: seq<Event>, e: Event, kind: Kind)
    ensures Count(events + [e], kind) == Count(events, kind) + if e.kind == kind then 1 else 0
  {
    assert (events + [e])[..|events|] == events;
  }

  lemma CountsSnoc(events: seq<Event>, e: Event)
    ensures Count(events + [e], Discovery) == Count(events, Discovery) + if e.kind == Discovery then 1 else 0
    ensures Count(events + [e], Remediation) == Count(events, Remediation) + if e.kind == Remediation then 1 else 0
    ensures Count(events + [e], Reopening) == Count(events, Reopening) + if e.kind == Reopening then 1 else 0
  {
    hide Count;
    CountSnoc(events, e, Discovery);
    CountSnoc(events, e, Remediation);
    CountSnoc(events, e, Reopening);
  }

  lemma Marked(tracker: map<string, Status>, k: string, status: Status)
    ensures var t := tracker[k := status];
      && |t| == |tracker| + (if k in tracker then 0 else 1)
      && |With(t, Remediated)| == |With(tracker, Remediated)|
           + (if status == Remediated then 1 else 0) - (if k in tracker && tracker[k] == Remediated then 1 else 0)
  {
    hide With;
    var t := tracker[k := status];
    Toggled(t.Keys, tracker.Keys, k);
    MarkedWith(tracker, k, status);
    Toggled(With(t, Remediated), With(tracker, Remediated), k);
  }

  lemma MarkedWith(tracker: map<string, Status>, k: string, status: Status)
    ensures With(tracker[k := status], Remediated) - {k} == With(tracker, Remediated) - {k}
    ensures k in With(tracker[k := status], Remediated) <==> status == Remediated
    ensures k in With(tracker, Remediated) <==> k in tracker && tracker[k] == Remediated
  {
  }

  lemma Toggled<T>(a: set<T>, b: set<T>, x: T)
    requires a - {x} == b - {x}
    ensures |a| - (if x in a then 1 else 0) == |b| - if x in b then 1 else 0
  {
    SizeWithout(a, x);
    SizeWithout(b, x);
  }

  lemma EventBooked(a: Audit, key: string, present: set<string>, n: nat)
    requires Booked(a)
    ensures Booked(SeeNode(a, key, n)) && Booked(SeeAdvisory(a, key, n)) && Booked(CloseIfAbsent(a, key, present, n))
  {
    hide Count, With;
    Marked(a.tracker, key, Active);
    Marked(a.tracker, key, Remediated);
    CountsSnoc(a.events, Event(Discovery, key, n));
    CountsSnoc(a.events, Event(Reopening, key, n));
    CountsSnoc(a.events, Event(Remediation, key, n));
  }

  lemma {:induction false} VulnsBooked(a: Audit, vs: seq<Vuln>, n: nat)
    requires Booked(a)
    ensures Booked(SeeNodes(a, vs, n)) && Booked(SeeAdvisories(a, vs, n))
  {
    hide Booked, SeeNode, SeeAdvisory, KeyOf;
    if vs != [] {
      var init, v := vs[..|vs| - 1], vs[|vs| - 1];
      VulnsBooked(a, init, n);
      EventBooked(SeeNodes(a, init, n), KeyOf(v), {}, n);
      EventBooked(SeeAdvisories(a, init, n), KeyOf(v), {}, n);
    }
  }

  lemma {:induction false} ClosingBooked(a: Audit, keys: seq<string>, present: set<string>, n: nat)
    requires Booked(a)
    ensures Booked(CloseAbsent(a, keys, present, n))
  {
    hide Booked, CloseIfAbsent;
    if keys != [] {
      ClosingBooked(a, keys[..|keys| - 1], present, n);
      EventBooked(CloseAbsent(a, keys[..|keys| - 1], present, n), keys[|keys| - 1], present, n);
    }
  }

  lemma ScanBooked(a: Audit, s: Scan)
    requires Booked(a)
    ensures Booked(Tracked(a, s)) && Booked(AfterScan(a, s))
    ensures |AfterScan(a, s).snapshots| == |a.snapshots| + 1
  {
    hide SeeNodes, SeeAdvisories, CloseAbsent, Present, With, Count;
    var n := |a.snapshots|;
    VulnsBooked(a, s.nodeVulns, n);
    var mid := SeeNodes(a, s.nodeVulns, n);
    VulnsBooked(mid, s.advisories, n);
    var seen := SeeAdvisories(mid, s.advisories, n);
    ClosingBooked(seen, seen.order, Present(s), n);
  }

  lemma {:induction false} AlwaysBooked(scans: seq<Scan>)
    ensures Booked(AuditOf(scans)) && |AuditOf(scans).snapshots| == |scans|
  {
    hide Booked, AfterScan;
    if scans == [] {
      NothingBooked();
    } else {
      AlwaysBooked(scans[..|scans| - 1]);
      ScanBooked(AuditOf(scans[..|scans| - 1]), scans[|scans| - 1]);
    }
  }

  lemma NothingBooked()
    ensures Booked(START)
  {
    assert With(map[], Remediated) == {};
  }

  // ----- main results

  /** One scan moves every key by its own small machine, whatever the other keys do. */
  lemma ScanStep(a: Audit, s: Scan, k: string)
    requires Booked(a)
    ensures LifeOf(AfterScan(a, s), k)
      == LiveThrough(LifeOf(a, k), k, k in Keys(s.nodeVulns), k in Keys(s.advisories), |a.snapshots|)
  {
    hide SeeNodes, SeeAdvisories, CloseAbsent, With, Count, EventsOf, Keys;
    var n := |a.snapshots|;
    NodesStep(a, s.nodeVulns, n, k);
    VulnsBooked(a, s.nodeVulns, n);
    var mid := SeeNodes(a, s.nodeVulns, n);
    AdvisoriesStep(mid, s.advisories, n, k);
    VulnsBooked(mid, s.advisories, n);
    var seen := SeeAdvisories(mid, s.advisories, n);
    ClosingStep(seen, seen.order, Present(s), n, k);
  }

  /** The kind of a key's event number `j`. */
  function Expected(j: nat): Kind {
    if j == 0 then Discovery else if j % 2 == 1 then Remediation else Reopening
  }

  ghost predicate WellLived(l: Life, scans: nat) {
    && (forall j | 0 <= j < |l.events| :: l.events[j].kind == Expected(j) && l.events[j].scan < scans)
    && (forall i, j | 0 <= i < j < |l.events| :: l.events[i].scan < l.events[j].scan)
    && l.status == (if l.events == [] then None else if |l.events| % 2 == 1 then Some(Active) else Some(Remediated))
  }

  lemma LivesOn(l: Life, k: string, inNode: bool, inAdvisory: bool, n: nat)
    requires WellLived(l, n)
    ensures WellLived(LiveThrough(l, k, inNode, inAdvisory, n), n + 1)
  {
  }

  /** For every sequence of scans and every key: the events of the key are a discovery followed by
      alternating remediations and reopenings, at most one per scan and in scan order; the key is
      active after an odd number of events, remediated after an even positive number, and untracked
      without events. */
  lemma {:induction false} EventsAlternate(scans: seq<Scan>, k: string)
    ensures WellLived(LifeOf(AuditOf(scans), k), |scans|)
  {
    hide AfterScan, LifeOf, WellLived, LiveThrough, Booked;
    if scans == [] {
      UnseenLife(k);
    } else {
      var init, s := scans[..|scans| - 1], scans[|scans| - 1];
      EventsAlternate(init, k);
      AlwaysBooked(init);
      ScanStep(AuditOf(init), s, k);
      LivesOn(LifeOf(AuditOf(init), k), k, k in Keys(s.nodeVulns), k in Keys(s.advisories), |init|);
    }
  }

  lemma UnseenLife(k: string)
    ensures WellLived(LifeOf(START, k), 0)
  {
  }

  ghost predicate Occurs(scans: seq<Scan>, i: int, k: string) { 0 <= i < |scans| && k in Present(scans[i]) }

  /** `total_discovered` counts the keys that occur in any scan: a key is tracked exactly when one has it. */
  lemma {:induction false} TrackedIfSeen(scans: seq<Scan>, k: string)
    ensures k in AuditOf(scans).tracker <==> exists i :: Occurs(scans, i, k)
  {
    hide AfterScan, Booked, EventsOf, Keys;
    if scans != [] {
      var n := |scans| - 1;
      var init, s := scans[..n], scans[n];
      TrackedIfSeen(init, k);
      AlwaysBooked(init);
      ScanStep(AuditOf(init), s, k);
      if i :| Occurs(scans, i, k) {
        assert i == n || Occurs(init, i, k);
      }
      if i :| Occurs(init, i, k) {
        assert Occurs(scans, i, k);
      }
      assert k in Present(s) ==> Occurs(scans, n, k);
    }
  }

  /** The summary's figures are the events': `total_discovered` is the number of discoveries, and
      `remediated` the number of remediations less the number of reopenings. */
  lemma SummaryCountsEvents(scans: seq<Scan>)
    ensures var a := AuditOf(scans);
      && Count(a.events, Discovery) == |a.tracker|
      && Count(a.events, Remediation) - Count(a.events, Reopening) == |With(a.tracker, Remediated)|
  {
    hide AuditOf;
    AlwaysBooked(scans);
  }

  /** After each scan a key is active exactly when a node of that scan has it, or an advisory of that scan
      names it and it was not remediated before. So only keys present in the scan are active. */
  lemma ActiveAfterScan(scans: seq<Scan>, s: Scan, k: string)
    ensures var before, after := LifeOf(AuditOf(scans), k).status, LifeOf(AuditOf(scans + [s]), k).status;
      after == Some(Active) <==> k in Keys(s.nodeVulns) || (k in Keys(s.advisories) && before != Some(Remediated))
  {
    hide AfterScan, LifeOf, Booked, Keys;
    assert (scans + [s])[..|scans|] == scans;
    AlwaysBooked(scans);
    ScanStep(AuditOf(scans), s, k);
  }

  lemma StatusOf(a: Audit, k: string)
    ensures LifeOf(a, k).status == if k in a.tracker then Some(a.tracker[k]) else None
  {
  }

  lemma ActiveArePresent(scans: seq<Scan>, s: Scan)
    ensures With(AuditOf(scans + [s]).tracker, Active) <= Present(s)
    ensures forall k | k in Present(s) :: k in With(AuditOf(scans + [s]).tracker, Active)
              <==> !(k !in Keys(s.nodeVulns) && k in With(AuditOf(scans).tracker, Remediated))
  {
    hide AuditOf, LifeOf, Keys;
    forall k ensures k in With(AuditOf(scans + [s]).tracker, Active)
        <==> k in Keys(s.nodeVulns) || (k in Keys(s.advisories) && k !in With(AuditOf(scans).tracker, Remediated))
    {
      ActiveAfterScan(scans, s, k);
      StatusOf(AuditOf(scans), k);
      StatusOf(AuditOf(scans + [s]), k);
    }
  }

  /** Each snapshot's discovered and remediated figures are those of the events so far. Its active count is
      the tracker's exactly when no advisory of the scan, not backed by a node, names a key that was remediated
      before: the source never reopens such a key. */
  lemma SnapshotAgreesUnlessAdvisoryReturns(scans: seq<Scan>, s: Scan)
    ensures var a := AuditOf(scans + [s]);
      && |a.snapshots| == |scans| + 1
      && a.snapshots[|scans|].discovered == Count(a.events, Discovery)
      && a.snapshots[|scans|].remediated == Count(a.events, Remediation) - Count(a.events, Reopening)
      && (a.snapshots[|scans|].active == |With(a.tracker, Active)|
          <==> (Keys(s.advisories) - Keys(s.nodeVulns)) * With(AuditOf(scans).tracker, Remediated) == {})
  {
    hide Keys, With, Tracked;
    assert (scans + [s])[..|scans|] == scans;
    AlwaysBooked(scans);
    AlwaysBooked(scans + [s]);
    ActiveArePresent(scans, s);
    var active := With(AuditOf(scans + [s]).tracker, Active);
    SubsetSize(active, Present(s));
    var gap := (Keys(s.advisories) - Keys(s.nodeVulns)) * With(AuditOf(scans).tracker, Remediated);
    if k :| k in gap {
      assert k in Present(s) && k !in active;
    }
    if k :| k in Present(s) && k !in active {
      assert k in gap;
    }
  }

  /** An advisory that goes away and comes back: the snapshot calls it active, the tracker remediated. */
  lemma AdvisoryReturns()
    ensures var s := Scan([], [Vuln("ICSA", "h")]);
      var scans := [s, Scan([], [])];
      var a := AuditOf(scans + [s]);
      |a.snapshots| == 3 && a.snapshots[2].active != |With(a.tracker, Active)|
  {
    hide AuditOf, With;
    var v := Vuln("ICSA", "h");
    var s, k := Scan([], [v]), KeyOf(v);
    var empty := Scan([], []);
    assert k in Keys(s.advisories) && k !in Keys(s.nodeVulns) && k !in Keys(empty.advisories);
    assert [] + [s] == [s] && [s] + [empty] == [s, empty];
    RemediatedByAbsence(s, empty, k);
    assert k in (Keys(s.advisories) - Keys(s.nodeVulns)) * With(AuditOf([s, empty]).tracker, Remediated);
    SnapshotAgreesUnlessAdvisoryReturns([s, empty], s);
  }

  lemma RemediatedByAbsence(s: Scan, empty: Scan, k: string)
    requires k in Keys(s.advisories) && empty == Scan([], [])
    ensures k in With(AuditOf([s, empty]).tracker, Remediated)
  {
    hide AfterScan, Booked, EventsOf;
    assert [s, empty][..1] == [s] && [s][..0] == [];
    AlwaysBooked([]);
    AlwaysBooked([s]);
    ScanStep(START, s, k);
    ScanStep(AuditOf([s]), empty, k);
  }
}
