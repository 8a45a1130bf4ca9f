/** The longitudinal profile of one asset: per-peer, per-finding and per-anomaly histories, the protocol
    history, what is new against the baseline, and the change between the last two appearances.

    Strings are modelled after the source's strip, lower and upper normalisation. Time stamps and file
    names are modelled by their rank in string order. */
module Baselines {
  import opened Collections
  import opened Wrappers
  import opened Rollup

  type Ordinal = nat

  datatype Node = Node(ip: string, mac: string, protocols: seq<string>)

  datatype Conv = Conv(srcIp: string, dstIp: string, srcMac: string, dstMac: string, protocol: string, packets: int)

  datatype Finding = Finding(category: string, affected: seq<string>)

  datatype Anomaly = Anomaly(kind: string, srcMac: string, dstMac: string)

  datatype Report = Report(
    filename: Ordinal, ts: Ordinal, nodes: seq<Node>, convs: seq<Conv>, findings: seq<Finding>, anomalies: seq<Anomaly>)

  /** A report in which the asset appears, with the asset's node there. */
  datatype Presence = Presence(report: Report, node: Node)

  // ----- presences

  predicate Matches(n: Node, key: string, byMac: bool) { if byMac then n.mac == key else n.ip == key }

  function FindNode(nodes: seq<Node>, key: string, byMac: bool): Option<Node> {
    if nodes == [] then None
    else if Matches(nodes[0], key, byMac) then Some(nodes[0])
    else FindNode(nodes[1..], key, byMac)
  }

  function Presences(reports: seq<Report>, key: string, byMac: bool): seq<Presence> {
    if reports == [] then []
    else
      var r := reports[|reports| - 1];
      var node := FindNode(r.nodes, key, byMac);
      Presences(reports[..|reports| - 1], key, byMac) + if node.Some? then [Presence(r, node.value)] else []
  }

  method CollectPresences(reports: seq<Report>, key: string, byMac: bool) returns (ps: seq<Presence>)
    ensures ps == Presences(reports, key, byMac)
  {
    ps := [];
    for i := 0 to |reports|
      invariant ps == Presences(reports[..i], key, byMac)
    {
      assert reports[..i + 1][..i] == reports[..i];
      var node := FindNode(reports[i].nodes, key, byMac);
      if node.Some? {
        ps := ps + [Presence(reports[i], node.value)];
      }
    }
    assert reports[..|reports|] == reports;
  }

  // ----- what a presence mentions

  /** `name` is the peer, finding category or anomaly type; None when the item does not concern the asset. */
  datatype Sighting = Sighting(filename: Ordinal, ts: Ordinal, name: Option<string>, packets: int)

  function Other(isSrc: bool, isDst: bool, c: Conv): Option<string> {
    if isSrc && c.dstIp != "" then Some(c.dstIp)
    else if isDst && c.srcIp != "" then Some(c.srcIp)
    else None
  }

  function PeerOf(c: Conv, n: Node): Option<string> {
    var byIp := if n.ip == "" then None else Other(c.srcIp == n.ip, c.dstIp == n.ip, c);
    if byIp.None? && n.mac != "" then Other(c.srcMac == n.mac, c.dstMac == n.mac, c) else byIp
  }

  predicate IsAsset(ip: string, mac: string, n: Node) { (n.ip != "" && ip == n.ip) || (n.mac != "" && mac == n.mac) }

  /** A conversation has a peer exactly when one end is the asset and the other end has an IP; the peer is
      then that IP. */
  lemma PeerIsTheOtherEnd(c: Conv, n: Node)
    ensures var src, dst := IsAsset(c.srcIp, c.srcMac, n), IsAsset(c.dstIp, c.dstMac, n);
      && (PeerOf(c, n).Some? <==> (src && c.dstIp != "") || (dst && c.srcIp != ""))
      && (PeerOf(c, n).Some? ==>
            var peer := PeerOf(c, n).value; peer != "" && ((src && peer == c.dstIp) || (dst && peer == c.srcIp)))
  {
  }

  predicate Names(ref: string, n: Node) { (n.ip != "" && ref == n.ip) || (n.mac != "" && ref == n.mac) }

  predicate Affected(f: Finding, n: Node) { exists ref :: ref in f.affected && Names(ref, n) }

  function CategoryOf(f: Finding, n: Node): Option<string> {
    if f.category != "" && Affected(f, n) then Some(f.category) else None
  }

  function KindOf(a: Anomaly, n: Node): Option<string> {
    if a.kind != "" && n.mac != "" && (a.srcMac == n.mac || a.dstMac == n.mac) then Some(a.kind) else None
  }

  function PeerGroup(p: Presence): seq<Sighting> {
    var cs := p.report.convs;
    seq(|cs|, j requires 0 <= j < |cs| =>
      Sighting(p.report.filename, p.report.ts, PeerOf(cs[j], p.node), cs[j].packets))
  }

  function FindingGroup(p: Presence): seq<Sighting> {
    var fs := p.report.findings;
    seq(|fs|, j requires 0 <= j < |fs| => Sighting(p.report.filename, p.report.ts, CategoryOf(fs[j], p.node), 0))
  }

  function AnomalyGroup(p: Presence): seq<Sighting> {
    var xs := p.report.anomalies;
    seq(|xs|, j requires 0 <= j < |xs| => Sighting(p.report.filename, p.report.ts, KindOf(xs[j], p.node), 0))
  }

  // ----- one history

  /** `times` counts sightings, not reports. */
  datatype Entry = Entry(
    firstTs: Ordinal, firstFile: Ordinal, lastTs: Ordinal, lastFile: Ordinal, packets: int, times: nat)

  predicate Precedes(ts: Ordinal, file: Ordinal, ts': Ordinal, file': Ordinal) {
    ts < ts' || (ts == ts' && file < file')
  }

  function Open(s: Sighting): Entry { Entry(s.ts, s.filename, s.ts, s.filename, s.packets, 1) }

  function See(e: Entry, s: Sighting): Entry {
    var e1 :=
      if Precedes(s.ts, s.filename, e.firstTs, e.firstFile) then e.(firstTs := s.ts, firstFile := s.filename) else e;
    var e2 :=
      if Precedes(e1.lastTs, e1.lastFile, s.ts, s.filename) then e1.(lastTs := s.ts, lastFile := s.filename) else e1;
    e2.(packets := e.packets + s.packets, times := e.times + 1)
  }

  function HistoryRules(): Rules<Sighting, string, Entry> { Rules((s: Sighting) => s.name, Open, See) }

  ghost function Entries(slots: map<string, Slot<Entry>>): map<string, Entry> {
    map k | k in slots :: slots[k].entry
  }

  ghost function NamesIn(groups: seq<seq<Sighting>>): set<string> {
    if groups == [] then {} else NamesIn(groups[..|groups| - 1]) + KeysOf(HistoryRules(), groups[|groups| - 1])
  }

  /** All but the last presence. */
  ghost function BaselineNames(groups: seq<seq<Sighting>>): set<string> {
    if groups == [] then {} else NamesIn(groups[..|groups| - 1])
  }

  ghost function LatestNames(groups: seq<seq<Sighting>>): set<string> {
    if groups == [] then {} else KeysOf(HistoryRules(), groups[|groups| - 1])
  }

  ghost function Files(trail: seq<Sighting>): set<Ordinal> { set s | s in trail :: s.filename }

  method NoteSighting(data0: map<string, Entry>, s: Sighting, ghost f: Fold<string, Entry>)
    returns (data: map<string, Entry>)
    requires data0 == Entries(f.slots)
    ensures data == Entries(Absorb(HistoryRules(), f, s).slots)
  {
    hide Open, See;
    data := data0;
    if s.name.Some? {
      var k := s.name.value;
      data := data[k := if k in data then See(data[k], s) else Open(s)];
    }
  }

  /** The loop over one presence: the entries, and the names this presence mentions. */
  method NotePresence(data0: map<string, Entry>, group: seq<Sighting>, ghost slots: map<string, Slot<Entry>>)
    returns (data: map<string, Entry>, names: set<string>)
    requires data0 == Entries(slots)
    ensures data == Entries(Within(HistoryRules(), Fold(slots, {}), group).slots)
    ensures names == KeysOf(HistoryRules(), group)
  {
    hide Absorb, Entries;
    data, names := data0, {};
    for j := 0 to |group|
      invariant data == Entries(Within(HistoryRules(), Fold(slots, {}), group[..j]).slots)
      invariant names == KeysOf(HistoryRules(), group[..j])
    {
      assert group[..j + 1][..j] == group[..j];
      data := NoteSighting(data, group[j], Within(HistoryRules(), Fold(slots, {}), group[..j]));
      if group[j].name.Some? {
        names := names + {group[j].name.value};
      }
    }
    assert group[..|group|] == group;
  }

  datatype History = History(
    data: map<string, Entry>, baseline: set<string>, latest: set<string>, names: seq<set<string>>)

  method TrackHistory(groups: seq<seq<Sighting>>) returns (h: History)
    ensures h.data == Entries(Over(HistoryRules(), groups))
    ensures h.baseline == BaselineNames(groups) && h.latest == LatestNames(groups)
    ensures |h.names| == |groups| && forall i | 0 <= i < |groups| :: h.names[i] == KeysOf(HistoryRules(), groups[i])
  {
    hide HistoryRules, Within, KeysOf;
    var data: map<string, Entry>, names: seq<set<string>> := map[], [];
    var baseline: set<string>, latest: set<string> := {}, {};
    for i := 0 to |groups|
      invariant data == Entries(Over(HistoryRules(), groups[..i]))
      invariant baseline == if i == |groups| then BaselineNames(groups) else NamesIn(groups[..i])
      invariant latest == if i == |groups| then LatestNames(groups) else {}
      invariant |names| == i && forall j | 0 <= j < i :: names[j] == KeysOf(HistoryRules(), groups[j])
    {
      assert groups[..i + 1][..i] == groups[..i];
      var here;
      data, here := NotePresence(data, groups[i], Over(HistoryRules(), groups[..i]));
      if i != |groups| - 1 {
        baseline := baseline + here;
      } else {
        latest := latest + here;
      }
      names := names + [here];
    }
    assert groups[..|groups|] == groups;
    h := History(data, baseline, latest, names);
  }

  /** The second pass over the peers: the file names each peer is seen under. */
  method PeerFiles(groups: seq<seq<Sighting>>, names: set<string>) returns (files: map<string, set<Ordinal>>)
    ensures files.Keys == names
    ensures forall k | k in names :: files[k] == Files(FullTrail(HistoryRules(), groups, k))
  {
    hide Trail;
    files := map k | k in names :: {};
    for i := 0 to |groups|
      invariant files.Keys == names
      invariant forall k | k in names :: files[k] == Files(FullTrail(HistoryRules(), groups[..i], k))
    {
      assert groups[..i + 1][..i] == groups[..i];
      files := FilesWithin(files, groups[..i], groups[i]);
    }
    assert groups[..|groups|] == groups;
  }

  method FilesWithin(files0: map<string, set<Ordinal>>, ghost before: seq<seq<Sighting>>, group: seq<Sighting>)
    returns (files: map<string, set<Ordinal>>)
    requires forall k | k in files0 :: files0[k] == Files(FullTrail(HistoryRules(), before, k))
    ensures files.Keys == files0.Keys
    ensures forall k | k in files0 ::
      files[k] == Files(FullTrail(HistoryRules(), before, k) + Trail(HistoryRules(), group, k))
  {
    hide FullTrail;
    files := files0;
    for j := 0 to |group|
      invariant files.Keys == files0.Keys
      invariant forall k | k in files0 ::
          files[k] == Files(FullTrail(HistoryRules(), before, k) + Trail(HistoryRules(), group[..j], k))
    {
      assert group[..j + 1][..j] == group[..j];
      var s := group[j];
      forall k | k in files0 {
        FilesSnoc(FullTrail(HistoryRules(), before, k), group[..j + 1], k);
      }
      if s.name.Some? && s.name.value in files {
        files := files[s.name.value := files[s.name.value] + {s.filename}];
      }
    }
    assert group[..|group|] == group;
  }

  lemma FilesAdd(trail: seq<Sighting>, s: Sighting)
    ensures Files(trail + [s]) == Files(trail) + {s.filename}
  {
    assert forall s' :: s' in trail + [s] <==> s' in trail || s' == s;
  }

  lemma TrailSnoc(group: seq<Sighting>, k: string)
    requires group != []
    ensures var n := |group| - 1;
      Trail(HistoryRules(), group, k)
      == Trail(HistoryRules(), group[..n], k) + if group[n].name == Some(k) then [group[n]] else []
  {
  }

  lemma FilesSnoc(trail: seq<Sighting>, group: seq<Sighting>, k: string)
    requires group != []
    ensures var n := |group| - 1;
      Files(trail + Trail(HistoryRules(), group, k))
      == Files(trail + Trail(HistoryRules(), group[..n], k))
         + if group[n].name == Some(k) then {group[n].filename} else {}
  {
    hide Files, Trail, HistoryRules;
    var n := |group| - 1;
    var t, s := Trail(HistoryRules(), group[..n], k), group[n];
    TrailSnoc(group, k);
    if s.name == Some(k) {
      FilesAdd(trail + t, s);
      assert trail + (t + [s]) == (trail + t) + [s];
    } else {
      assert t + [] == t;
    }
  }

  // ----- the profile

  datatype Row = Row(entry: Entry, reportCount: nat, isNewInLatest: bool)

  datatype Delta = Delta(
    added: set<string>, removed: set<string>,
    previousCount: nat, lastCount: nat, addedCount: nat, removedCount: nat)

  function SetDelta(previous: set<string>, last: set<string>): Delta {
    Delta(last - previous, previous - last, |previous|, |last|, |last - previous|, |previous - last|)
  }

  datatype View = View(rows: map<string, Row>, gained: set<string>, lost: set<string>, delta: Delta)

  ghost function PreviousNames(groups: seq<seq<Sighting>>): set<string> {
    if |groups| < 2 then {} else KeysOf(HistoryRules(), groups[|groups| - 2])
  }

  ghost function ViewOf(groups: seq<seq<Sighting>>): View {
    var data, baseline, latest := Over(HistoryRules(), groups), BaselineNames(groups), LatestNames(groups);
    View(map k | k in data :: Row(data[k].entry, |Files(FullTrail(HistoryRules(), groups, k))|, k !in baseline),
         latest - baseline, baseline - latest, SetDelta(PreviousNames(groups), latest))
  }

  /** The history, novelty and delta of one kind of item. */
  method BuildView(groups: seq<seq<Sighting>>) returns (v: View)
    ensures v == ViewOf(groups)
  {
    hide HistoryRules, Over, BaselineNames, LatestNames, FullTrail, Files, KeysOf;
    var h := TrackHistory(groups);
    var files := PeerFiles(groups, h.data.Keys);
    var rows := map k | k in h.data :: Row(h.data[k], |files[k]|, k !in h.baseline);
    var n := |h.names|;
    var previous := if n >= 2 then h.names[n - 2] else {};
    var last := if n >= 1 then h.names[n - 1] else {};
    LatestIsLast(groups);
    v := View(rows, h.latest - h.baseline, h.baseline - h.latest, SetDelta(previous, last));
  }

  lemma LatestIsLast(groups: seq<seq<Sighting>>)
    ensures LatestNames(groups) == if groups == [] then {} else KeysOf(HistoryRules(), groups[|groups| - 1])
  {
  }

  // ----- first and last sightings, totals

  ghost function Packets(trail: seq<Sighting>): int {
    if trail == [] then 0 else Packets(trail[..|trail| - 1]) + trail[|trail| - 1].packets
  }

  /** The lexicographic minimum and maximum of (ts, filename) over the trail, and its totals. */
  ghost predicate Describes(e: Entry, trail: seq<Sighting>) {
    && (forall s | s in trail :: e.firstTs < s.ts || (e.firstTs == s.ts && e.firstFile <= s.filename))
    && (exists s :: s in trail && (s.ts, s.filename) == (e.firstTs, e.firstFile))
    && (forall s | s in trail :: s.ts < e.lastTs || (s.ts == e.lastTs && s.filename <= e.lastFile))
    && (exists s :: s in trail && (s.ts, s.filename) == (e.lastTs, e.lastFile))
    && e.packets == Packets(trail) && e.times == |trail|
  }

  lemma DescribesMore(e: Entry, trail: seq<Sighting>, s: Sighting)
    requires Describes(e, trail)
    ensures Describes(See(e, s), trail + [s])
  {
    var t := trail + [s];
    assert t[..|trail|] == trail;
    assert forall s' :: s' in t <==> s' in trail || s' == s;
    var a :| a in trail && (a.ts, a.filename) == (e.firstTs, e.firstFile);
    var b :| b in trail && (b.ts, b.filename) == (e.lastTs, e.lastFile);
    assert a in t && b in t && s in t;
  }

  lemma DescribesOne(s: Sighting)
    ensures Describes(Open(s), [s])
  {
    assert [s][..0] == [] && s in [s];
  }

  lemma {:induction false} ReplayDescribes(trail: seq<Sighting>)
    requires trail != []
    ensures Describes(Replay(HistoryRules(), trail), trail)
  {
    hide Describes, Open, See;
    var init, s := trail[..|trail| - 1], trail[|trail| - 1];
    if |trail| == 1 {
      DescribesOne(s);
      assert trail == [s];
    } else {
      ReplayDescribes(init);
      DescribesMore(Replay(HistoryRules(), init), init, s);
      assert init + [s] == trail;
    }
  }

  /** A history row: the name has one exactly when some presence mentions it; first and last seen are the
      lexicographic minimum and maximum over its sightings, `convs_total` their packets, `in_reports` their
      number, and `report_count` the number of different file names among them. */
  lemma RowDescribes(groups: seq<seq<Sighting>>, k: string)
    ensures var v, trail := ViewOf(groups), FullTrail(HistoryRules(), groups, k);
      && (k in v.rows <==> trail != [])
      && (k in v.rows ==> Describes(v.rows[k].entry, trail) && v.rows[k].reportCount == |Files(trail)|)
      && (forall s :: s in trail <==> s.name == Some(k) && exists i | 0 <= i < |groups| :: s in groups[i])
  {
    hide Over, FullTrail, Replay, Describes, Files, ReportsWith;
    OverReplays(HistoryRules(), groups, k);
    var trail := FullTrail(HistoryRules(), groups, k);
    forall s ensures s in trail <==> s.name == Some(k) && exists i | 0 <= i < |groups| :: s in groups[i] {
      FullTrailMembers(HistoryRules(), groups, k, s);
    }
    if trail != [] {
      ReplayDescribes(trail);
    }
  }

  // ----- when the counts are numbers of reports

  /** `in_reports` and `reports_with_event` are the number of presences that mention the name exactly when no
      presence mentions it twice, and exceed it otherwise. */
  lemma TimesAreReports(groups: seq<seq<Sighting>>, k: string)
    requires k in Over(HistoryRules(), groups)
    ensures var times, reports := Over(HistoryRules(), groups)[k].entry.times, |ReportsWith(HistoryRules(), groups, k)|;
      && times >= reports
      && (times == reports <==> forall i | 0 <= i < |groups| :: |Trail(HistoryRules(), groups[i], k)| <= 1)
  {
    hide Over, FullTrail, Trail, Replay, ReportsWith, HistoryRules;
    OverReplays(HistoryRules(), groups, k);
    ReplayDescribes(FullTrail(HistoryRules(), groups, k));
    SightingsPerReport(HistoryRules(), groups, k);
  }

  /** The sightings of each presence carry its file name. */
  ghost predicate Filed(groups: seq<seq<Sighting>>, files: seq<Ordinal>) {
    |files| == |groups| && forall i, s | 0 <= i < |groups| && s in groups[i] :: s.filename == files[i]
  }

  ghost predicate Mentioned(groups: seq<seq<Sighting>>, i: int, k: string) {
    0 <= i < |groups| && Trail(HistoryRules(), groups[i], k) != []
  }

  /** Two presences that mention the name have one file name. */
  ghost predicate SharesFile(groups: seq<seq<Sighting>>, files: seq<Ordinal>, k: string, i: int, j: int)
    requires |files| == |groups|
  {
    0 <= i < j < |groups| && Mentioned(groups, i, k) && Mentioned(groups, j, k) && files[i] == files[j]
  }

  lemma FilesOfTrail(groups: seq<seq<Sighting>>, files: seq<Ordinal>, k: string, x: Ordinal)
    requires Filed(groups, files)
    ensures x in Files(FullTrail(HistoryRules(), groups, k)) <==> exists i :: Mentioned(groups, i, k) && files[i] == x
  {
    hide FullTrail, Trail, HistoryRules;
    var trail := FullTrail(HistoryRules(), groups, k);
    if x in Files(trail) {
      var s :| s in trail && s.filename == x;
      FullTrailMembers(HistoryRules(), groups, k, s);
      var i :| 0 <= i < |groups| && s in groups[i];
      TrailMembers(HistoryRules(), groups[i], k, s);
      assert Mentioned(groups, i, k);
    }
    if i :| Mentioned(groups, i, k) && files[i] == x {
      var s := Trail(HistoryRules(), groups[i], k)[0];
      TrailMembers(HistoryRules(), groups[i], k, s);
      FullTrailMembers(HistoryRules(), groups, k, s);
    }
  }

  lemma FilesGrow(groups: seq<seq<Sighting>>, files: seq<Ordinal>, k: string)
    requires groups != [] && Filed(groups, files)
    ensures var n, r := |groups| - 1, HistoryRules();
      Files(FullTrail(r, groups, k))
      == Files(FullTrail(r, groups[..n], k)) + if Mentioned(groups, n, k) then {files[n]} else {}
  {
    hide FullTrail, Trail, HistoryRules, Files;
    var n := |groups| - 1;
    var init := groups[..n];
    assert Filed(init, files[..n]);
    forall i | 0 <= i < n ensures Mentioned(init, i, k) <==> Mentioned(groups, i, k) {
      assert init[i] == groups[i];
    }
    forall x
      ensures x in Files(FullTrail(HistoryRules(), groups, k))
        <==> x in Files(FullTrail(HistoryRules(), init, k)) || (Mentioned(groups, n, k) && x == files[n])
    {
      FilesOfTrail(groups, files, k, x);
      FilesOfTrail(init, files[..n], k, x);
      if i :| Mentioned(init, i, k) && files[..n][i] == x {
        assert Mentioned(groups, i, k) && files[i] == x;
      }
      if i :| Mentioned(groups, i, k) && files[i] == x {
        assert i == n || (Mentioned(init, i, k) && files[..n][i] == x);
      }
    }
  }

  lemma ShareSnoc(groups: seq<seq<Sighting>>, files: seq<Ordinal>, k: string)
    requires groups != [] && Filed(groups, files)
    ensures var n := |groups| - 1;
      (exists i, j :: SharesFile(groups, files, k, i, j))
      <==> (exists i, j :: SharesFile(groups[..n], files[..n], k, i, j))
           || (Mentioned(groups, n, k) && files[n] in Files(FullTrail(HistoryRules(), groups[..n], k)))
  {
    hide FullTrail, Trail, HistoryRules, Files;
    var n := |groups| - 1;
    var init := groups[..n];
    assert Filed(init, files[..n]);
    FilesOfTrail(init, files[..n], k, files[n]);
    forall i | 0 <= i < n ensures Mentioned(init, i, k) <==> Mentioned(groups, i, k) {
      assert init[i] == groups[i];
    }
    if i, j :| SharesFile(groups, files, k, i, j) {
      if j < n {
        assert SharesFile(init, files[..n], k, i, j);
      } else {
        assert Mentioned(init, i, k) && files[..n][i] == files[n];
      }
    }
    if i, j :| SharesFile(init, files[..n], k, i, j) {
      assert SharesFile(groups, files, k, i, j);
    }
    if Mentioned(groups, n, k) {
      if i :| Mentioned(init, i, k) && files[..n][i] == files[n] {
        assert SharesFile(groups, files, k, i, n);
      }
    }
  }

  /** A row's `report_count` is the number of presences that mention the name exactly when they have different
      file names, and falls short of it otherwise. */
  lemma {:induction false} ReportCountIsReports(groups: seq<seq<Sighting>>, files: seq<Ordinal>, k: string)
    requires Filed(groups, files)
    ensures var count := |Files(FullTrail(HistoryRules(), groups, k))|;
      var reports := |ReportsWith(HistoryRules(), groups, k)|;
      && count <= reports
      && (count == reports <==> !exists i, j :: SharesFile(groups, files, k, i, j))
  {
    hide FullTrail, Trail, HistoryRules, ReportsWith, Files, SharesFile;
    if groups == [] {
      NoReports(HistoryRules(), k);
      NothingShared(files, k);
    } else {
      var n, r := |groups| - 1, HistoryRules();
      assert Filed(groups[..n], files[..n]);
      ReportCountIsReports(groups[..n], files[..n], k);
      ReportsWithSnoc(r, groups, k);
      FilesGrow(groups, files, k);
      ShareSnoc(groups, files, k);
      SizeWith(Files(FullTrail(r, groups[..n], k)), files[n]);
      assert Mentioned(groups, n, k) <==> Trail(r, groups[n], k) != [];
    }
  }

  lemma NothingShared(files: seq<Ordinal>, k: string)
    requires files == []
    ensures Files(FullTrail(HistoryRules(), [], k)) == {}
    ensures !exists i, j :: SharesFile([], files, k, i, j)
  {
  }

  /** The file names of the presences. */
  function FileNames(ps: seq<Presence>): seq<Ordinal> {
    seq(|ps|, i requires 0 <= i < |ps| => ps[i].report.filename)
  }

  lemma PeersAreFiled(ps: seq<Presence>)
    ensures Filed(PeerGroups(ps), FileNames(ps))
  {
  }

  /** A peer's `report_count` against the presences in which it is seen. */
  lemma PeerReportCount(ps: seq<Presence>, k: string)
    requires k in ViewOf(PeerGroups(ps)).rows
    ensures var groups := PeerGroups(ps);
      var count, reports := ViewOf(groups).rows[k].reportCount, |ReportsWith(HistoryRules(), groups, k)|;
      && count <= reports
      && (count == reports <==> !exists i, j :: SharesFile(groups, FileNames(ps), k, i, j))
  {
    hide Over, FullTrail, Trail, HistoryRules, ReportsWith, Files, PeerGroups, SharesFile, Filed;
    PeersAreFiled(ps);
    ReportCountIsReports(PeerGroups(ps), FileNames(ps), k);
  }

  /** One report with two findings of one category is counted as two in `in_reports`. */
  lemma TwoFindingsOneReport(p: Presence, f: Finding, k: string)
    requires p.report.findings == [f, f] && CategoryOf(f, p.node) == Some(k)
    ensures var groups := FindingGroups([p]);
      && k in ViewOf(groups).rows && |ReportsWith(HistoryRules(), groups, k)| == 1
      && ViewOf(groups).rows[k].entry.times == 2
  {
    hide Over, CategoryOf, Replay, ReportsWith;
    var s := Sighting(p.report.filename, p.report.ts, Some(k), 0);
    var group, groups := FindingGroup(p), FindingGroups([p]);
    assert group == [s, s] && groups == [group];
    MentionedTwice(s, k);
    OnlyReport(group, k);
    OverReplays(HistoryRules(), groups, k);
    ReplayDescribes(FullTrail(HistoryRules(), groups, k));
  }

  lemma MentionedTwice(s: Sighting, k: string)
    requires s.name == Some(k)
    ensures Trail(HistoryRules(), [s, s], k) == [s, s]
  {
    TrailSnoc([s, s], k);
    TrailSnoc([s], k);
    assert [s, s][..1] == [s] && [s][..0] == [] && [] + [s] == [s];
    assert Trail(HistoryRules(), [], k) == [];
  }

  lemma OnlyReport(group: seq<Sighting>, k: string)
    ensures FullTrail(HistoryRules(), [group], k) == Trail(HistoryRules(), group, k)
    ensures |ReportsWith(HistoryRules(), [group], k)| == if Trail(HistoryRules(), group, k) == [] then 0 else 1
  {
    hide Trail;
    assert [group][..0] == [];
    ReportsWithSnoc(HistoryRules(), [group], k);
    NoReports(HistoryRules(), k);
  }

  /** Two reports under one file name that both show the peer count as one in `report_count`. */
  lemma OneFileTwoReports(p: Presence, q: Presence, k: string)
    requires p.report.filename == q.report.filename
    requires Mentioned(PeerGroups([p, q]), 0, k) && Mentioned(PeerGroups([p, q]), 1, k)
    ensures var groups := PeerGroups([p, q]);
      && k in ViewOf(groups).rows
      && ViewOf(groups).rows[k].reportCount < |ReportsWith(HistoryRules(), groups, k)|
  {
    hide Over, FullTrail, Trail, HistoryRules, ReportsWith, Replay, PeerGroup;
    var ps := [p, q];
    var groups := PeerGroups(ps);
    PeersAreFiled(ps);
    FilesOfTrail(groups, FileNames(ps), k, p.report.filename);
    assert Mentioned(groups, 0, k) && FileNames(ps)[0] == p.report.filename;
    RowDescribes(groups, k);
    PeerReportCount(ps, k);
    assert SharesFile(groups, FileNames(ps), k, 0, 1);
  }

  // ----- novelty

  lemma {:induction false} NamesAreTrails(groups: seq<seq<Sighting>>, k: string)
    ensures k in NamesIn(groups) <==> FullTrail(HistoryRules(), groups, k) != []
  {
    hide HistoryRules, KeysOf, Trail;
    if groups != [] {
      NamesAreTrails(groups[..|groups| - 1], k);
      KeysAreTrails(HistoryRules(), groups[|groups| - 1], k);
    }
  }

  lemma RowsAreNames(groups: seq<seq<Sighting>>, k: string)
    ensures k in ViewOf(groups).rows <==> k in BaselineNames(groups) || k in LatestNames(groups)
    ensures k in ViewOf(groups).rows ==> ViewOf(groups).rows[k].isNewInLatest == (k !in BaselineNames(groups))
  {
    hide Over, FullTrail, Replay, Files, ReportsWith, KeysOf, HistoryRules;
    OverReplays(HistoryRules(), groups, k);
    NamesAreTrails(groups, k);
  }

  lemma {:induction false} OneOfTheNames(groups: seq<seq<Sighting>>, i: nat)
    requires i < |groups|
    ensures KeysOf(HistoryRules(), groups[i]) <= NamesIn(groups)
  {
    hide KeysOf;
    if i < |groups| - 1 {
      OneOfTheNames(groups[..|groups| - 1], i);
    }
  }

  /** For every list of presences the three views agree: the rows flagged new are exactly the novelty set,
      which the delta against the previous presence contains; what the delta removes was in the
      baseline and is lost; and the delta's four counts balance. */
  lemma ViewsAgree(groups: seq<seq<Sighting>>)
    ensures var v := ViewOf(groups);
      && (set k | k in v.rows && v.rows[k].isNewInLatest) == v.gained
      && v.gained <= v.delta.added
      && v.delta.removed <= v.lost
      && v.delta.previousCount + v.delta.addedCount - v.delta.removedCount == v.delta.lastCount
  {
    hide BaselineNames, LatestNames, PreviousNames;
    var v := ViewOf(groups);
    var baseline, latest, previous := BaselineNames(groups), LatestNames(groups), PreviousNames(groups);
    forall k
      ensures k in v.rows <==> k in baseline || k in latest
      ensures k in v.rows ==> v.rows[k].isNewInLatest == (k !in baseline)
    {
      RowsAreNames(groups, k);
    }
    PreviousIsBaseline(groups);
    Balance(previous, latest);
  }

  lemma PreviousIsBaseline(groups: seq<seq<Sighting>>)
    ensures PreviousNames(groups) <= BaselineNames(groups)
  {
    if |groups| >= 2 {
      OneOfTheNames(groups[..|groups| - 1], |groups| - 2);
    }
  }

  lemma Balance(a: set<string>, b: set<string>)
    ensures |a| + |b - a| - |a - b| == |b|
  {
    assert a == (a * b) + (a - b) && b == (a * b) + (b - a);
  }

  // ----- protocols

  predicate Involves(c: Conv, n: Node) {
    (n.ip != "" && (c.srcIp == n.ip || c.dstIp == n.ip)) || (n.mac != "" && (c.srcMac == n.mac || c.dstMac == n.mac))
  }

  /** Packets of the asset's conversations, by protocol. */
  function Traffic(cs: seq<Conv>, n: Node): map<string, int> {
    if cs == [] then map[]
    else
      var m, c := Traffic(cs[..|cs| - 1], n), cs[|cs| - 1];
      if c.protocol != "" && Involves(c, n) then m[c.protocol := PacketsOf(m, c.protocol) + c.packets] else m
  }

  function PacketsOf(m: map<string, int>, k: string): int { if k in m then m[k] else 0 }

  function Protocols(p: Presence): set<string> {
    (set x | x in p.node.protocols && x != "") + Traffic(p.report.convs, p.node).Keys
  }

  method CountTraffic(p: Presence) returns (m: map<string, int>)
    ensures m == Traffic(p.report.convs, p.node)
  {
    var cs := p.report.convs;
    m := map[];
    for i := 0 to |cs|
      invariant m == Traffic(cs[..i], p.node)
    {
      assert cs[..i + 1][..i] == cs[..i];
      var k := cs[i].protocol;
      if k != "" && Involves(cs[i], p.node) {
        m := m[k := PacketsOf(m, k) + cs[i].packets];
      }
    }
    assert cs[..|cs|] == cs;
  }

  function AllProtocols(ps: seq<Presence>): set<string> {
    if ps == [] then {} else AllProtocols(ps[..|ps| - 1]) + Protocols(ps[|ps| - 1])
  }

  function BaselineProtocols(ps: seq<Presence>): set<string> { if ps == [] then {} else AllProtocols(ps[..|ps| - 1]) }

  datatype Appearance = Appearance(filename: Ordinal, ts: Ordinal, packets: int, isNew: bool)

  function Appearances(ps: seq<Presence>, baseline: set<string>, k: string): seq<Appearance> {
    if ps == [] then []
    else
      var p := ps[|ps| - 1];
      Appearances(ps[..|ps| - 1], baseline, k) + if k in Protocols(p) then [AppearanceIn(p, baseline, k)] else []
  }

  function AppearanceIn(p: Presence, baseline: set<string>, k: string): Appearance {
    Appearance(p.report.filename, p.report.ts, PacketsOf(Traffic(p.report.convs, p.node), k), k !in baseline)
  }

  function ProtocolHistory(ps: seq<Presence>, baseline: set<string>): map<string, seq<Appearance>> {
    map k | k in AllProtocols(ps) :: Appearances(ps, baseline, k)
  }

  /** The history after the protocols of `p` other than `todo` were appended. */
  ghost predicate Noted(history: map<string, seq<Appearance>>, before: seq<Presence>, p: Presence,
                        baseline: set<string>, todo: set<string>)
  {
    && todo <= Protocols(p)
    && history.Keys == AllProtocols(before) + (Protocols(p) - todo)
    && forall k | k in history ::
         history[k] == Appearances(before, baseline, k)
                       + if k in Protocols(p) && k !in todo then [AppearanceIn(p, baseline, k)] else []
  }

  lemma NotedNone(before: seq<Presence>, p: Presence, baseline: set<string>)
    ensures Noted(ProtocolHistory(before, baseline), before, p, baseline, Protocols(p))
  {
    hide Protocols, Appearances, AppearanceIn;
  }

  lemma NotedOne(history: map<string, seq<Appearance>>, before: seq<Presence>, p: Presence,
                 baseline: set<string>, todo: set<string>, k: string)
    requires Noted(history, before, p, baseline, todo) && k in todo
    ensures var past := if k in history then history[k] else [];
      Noted(history[k := past + [AppearanceIn(p, baseline, k)]], before, p, baseline, todo - {k})
  {
    hide Protocols, Appearances, AppearanceIn;
    NotYet(before, baseline, k);
    if k in history {
      assert history[k] == Appearances(before, baseline, k);
    }
  }

  lemma NotedAll(history: map<string, seq<Appearance>>, before: seq<Presence>, p: Presence, baseline: set<string>)
    requires Noted(history, before, p, baseline, {})
    ensures history == ProtocolHistory(before + [p], baseline)
  {
    hide Protocols, AppearanceIn;
    assert (before + [p])[..|before|] == before;
  }

  method NoteProtocols(history0: map<string, seq<Appearance>>, p: Presence, baseline: set<string>,
                       ghost before: seq<Presence>)
    returns (history: map<string, seq<Appearance>>)
    requires history0 == ProtocolHistory(before, baseline)
    ensures history == ProtocolHistory(before + [p], baseline)
  {
    hide Protocols, Traffic, Noted, ProtocolHistory;
    var traffic := CountTraffic(p);
    history := history0;
    var todo := Protocols(p);
    NotedNone(before, p, baseline);
    while todo != {}
      invariant Noted(history, before, p, baseline, todo)
    {
      var k :| k in todo;
      NotedOne(history, before, p, baseline, todo, k);
      var past := if k in history then history[k] else [];
      var here := Appearance(p.report.filename, p.report.ts, PacketsOf(traffic, k), k !in baseline);
      history := history[k := past + [here]];
      todo := todo - {k};
    }
    NotedAll(history, before, p, baseline);
  }

  lemma {:induction false} NotYet(ps: seq<Presence>, baseline: set<string>, k: string)
    ensures k in AllProtocols(ps) <==> Appearances(ps, baseline, k) != []
  {
    hide Protocols, Traffic;
    if ps != [] {
      NotYet(ps[..|ps| - 1], baseline, k);
    }
  }

  method TrackProtocols(ps: seq<Presence>) returns (history: map<string, seq<Appearance>>, baseline: set<string>)
    ensures baseline == BaselineProtocols(ps) && history == ProtocolHistory(ps, baseline)
  {
    hide Protocols, Appearances;
    baseline := {};
    for i := 0 to |ps|
      invariant baseline == if i == |ps| then BaselineProtocols(ps) else AllProtocols(ps[..i])
    {
      assert ps[..i + 1][..i] == ps[..i];
      if i < |ps| - 1 {
        baseline := baseline + Protocols(ps[i]);
      }
    }
    history := map[];
    assert ProtocolHistory([], baseline) == map[];
    for i := 0 to |ps|
      invariant history == ProtocolHistory(ps[..i], baseline)
    {
      assert ps[..i + 1] == ps[..i] + [ps[i]];
      history := NoteProtocols(history, ps[i], baseline, ps[..i]);
    }
    assert ps[..|ps|] == ps;
  }

  // ----- the profile

  datatype Profile = Profile(
    protocols: map<string, seq<Appearance>>,
    newProtocols: set<string>, lostProtocols: set<string>, protocolDelta: Delta,
    peers: View, findings: View, anomalies: map<string, Entry>, anomalyDelta: Delta)

  function PeerGroups(ps: seq<Presence>): seq<seq<Sighting>> {
    seq(|ps|, i requires 0 <= i < |ps| => PeerGroup(ps[i]))
  }

  function FindingGroups(ps: seq<Presence>): seq<seq<Sighting>> {
    seq(|ps|, i requires 0 <= i < |ps| => FindingGroup(ps[i]))
  }

  function AnomalyGroups(ps: seq<Presence>): seq<seq<Sighting>> {
    seq(|ps|, i requires 0 <= i < |ps| => AnomalyGroup(ps[i]))
  }

  function PreviousProtocols(ps: seq<Presence>): set<string> { if |ps| < 2 then {} else Protocols(ps[|ps| - 2]) }

  ghost function ProfileOf(ps: seq<Presence>): Profile
    requires ps != []
  {
    var baseline, latest := BaselineProtocols(ps), Protocols(ps[|ps| - 1]);
    Profile(ProtocolHistory(ps, baseline),
            latest - baseline, baseline - latest, SetDelta(PreviousProtocols(ps), latest),
            ViewOf(PeerGroups(ps)), ViewOf(FindingGroups(ps)),
            Entries(Over(HistoryRules(), AnomalyGroups(ps))),
            SetDelta(PreviousNames(AnomalyGroups(ps)), LatestNames(AnomalyGroups(ps))))
  }

  method TrackAnomalies(groups: seq<seq<Sighting>>) returns (data: map<string, Entry>, delta: Delta)
    ensures data == Entries(Over(HistoryRules(), groups))
    ensures delta == SetDelta(PreviousNames(groups), LatestNames(groups))
  {
    hide Over, Entries, HistoryRules, KeysOf;
    var h := TrackHistory(groups);
    var n := |groups|;
    delta := SetDelta(if n >= 2 then h.names[n - 2] else {}, if n >= 1 then h.names[n - 1] else {});
    data := h.data;
  }

  method ComputeAssetBaseline(reports: seq<Report>, key: string, byMac: bool) returns (profile: Option<Profile>)
    ensures var ps := Presences(reports, key, byMac);
      profile == if ps == [] then None else Some(ProfileOf(ps))
  {
    hide Presences, ViewOf, Over, Entries, KeysOf, HistoryRules, ProtocolHistory, BaselineProtocols, Protocols,
         PeerGroups, FindingGroups, AnomalyGroups, SetDelta, PreviousProtocols, PreviousNames, LatestNames;
    var ps := CollectPresences(reports, key, byMac);
    if ps == [] {
      return None;
    }
    var protocols, baseline := TrackProtocols(ps);
    var latest := Protocols(ps[|ps| - 1]);
    var peers := BuildView(PeerGroups(ps));
    var findings := BuildView(FindingGroups(ps));
    var anomalies, anomalyDelta := TrackAnomalies(AnomalyGroups(ps));
    profile := Some(Profile(protocols, latest - baseline, baseline - latest, SetDelta(PreviousProtocols(ps), latest),
                            peers, findings, anomalies, anomalyDelta));
  }

  lemma {:induction false} FlaggedAppearances(ps: seq<Presence>, baseline: set<string>, k: string, a: Appearance)
    requires a in Appearances(ps, baseline, k)
    ensures a.isNew == (k !in baseline)
  {
    if ps != [] {
      var init := Appearances(ps[..|ps| - 1], baseline, k);
      if a in init {
        FlaggedAppearances(ps[..|ps| - 1], baseline, k, a);
      }
    }
  }

  /** The protocols with an appearance flagged new are exactly `new_protocols`; each has that one
      appearance, in the last presence; and the delta relates to them as for peers. */
  lemma ProtocolViewsAgree(ps: seq<Presence>, k: string)
    requires ps != []
    ensures var r, d := ProfileOf(ps), ProfileOf(ps).protocolDelta;
      && (k in r.newProtocols <==> k in r.protocols && exists a :: a in r.protocols[k] && a.isNew)
      && (k in r.newProtocols ==> |r.protocols[k]| == 1)
      && r.newProtocols <= d.added
      && d.removed <= r.lostProtocols
      && d.previousCount + d.addedCount - d.removedCount == d.lastCount
  {
    hide Protocols, ViewOf, Over, Entries, PreviousNames, LatestNames;
    var n := |ps| - 1;
    var baseline := BaselineProtocols(ps);
    NotYet(ps, baseline, k);
    NotYet(ps[..n], baseline, k);
    var seen := Appearances(ps, baseline, k);
    if seen != [] {
      FlaggedAppearances(ps, baseline, k, seen[0]);
    }
    forall a | a in seen ensures a.isNew == (k !in baseline) {
      FlaggedAppearances(ps, baseline, k, a);
    }
    assert PreviousProtocols(ps) <= baseline;
    Balance(PreviousProtocols(ps), Protocols(ps[n]));
  }
}
