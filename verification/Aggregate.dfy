/** Project-level roll-up across reports: findings and assets deduplicated by one pass over every
    loadable report, after a first pass that learns which MAC owns which IP.

    Strings are modelled after the source's strip, lower and upper normalisation, and a timestamp by
    its rank among those that occur, with 0 for the empty string. */
module Aggregate {
  import opened Collections
  import opened Wrappers
  import opened Rollup

  type Stamp = nat

  datatype Severity = Critical | High | Medium | Low | Info

  /** `severity == None` is any text outside the five names. */
  datatype Finding = Finding(
    category: string, nodes: seq<string>, edges: seq<string>, severity: Option<Severity>,
    cvss: real, description: string, remediation: string, attackIds: seq<string>, source: string)

  /** Empty strings and `purdueLevel == None` are absent fields. */
  datatype Node = Node(
    mac: string, ip: string, role: string, vendor: string, deviceType: string, purdueLevel: Option<int>,
    protocols: seq<string>)

  datatype Report = Report(nodes: seq<Node>, findings: seq<Finding>)

  /** One report path; `report == None` when the loader raised or returned no dictionary. */
  datatype Source = Source(filename: string, modified: Stamp, report: Option<Report>)

  datatype Sighting<V> = Sighting(filename: string, modified: Stamp, what: V)

  // ----- first and last seen

  datatype Window = Window(firstReport: string, firstModified: Stamp, lastReport: string, lastModified: Stamp)

  function OpenWindow(filename: string, modified: Stamp): Window {
    Window(filename, modified, filename, modified)
  }

  function SeeWindow(w: Window, filename: string, modified: Stamp): Window {
    var w1 := if modified > w.lastModified then w.(lastModified := modified, lastReport := filename) else w;
    if modified != 0 && (w1.firstModified == 0 || modified < w1.firstModified)
    then w1.(firstModified := modified, firstReport := filename) else w1
  }

  /** The minimum over the non-empty stamps and the maximum, each attributed to a report that has it. */
  ghost predicate WindowOf<V(!new)>(w: Window, trail: seq<Sighting<V>>) {
    && (forall s | s in trail :: s.modified <= w.lastModified)
    && (forall s | s in trail && s.modified != 0 :: 0 < w.firstModified <= s.modified)
    && (exists s :: s in trail && (s.filename, s.modified) == (w.firstReport, w.firstModified))
    && (exists s :: s in trail && (s.filename, s.modified) == (w.lastReport, w.lastModified))
  }

  lemma WindowSnoc<V(!new)>(w: Window, trail: seq<Sighting<V>>, s: Sighting<V>)
    requires WindowOf(w, trail)
    ensures WindowOf(SeeWindow(w, s.filename, s.modified), trail + [s])
  {
    var t := trail + [s];
    assert forall s' :: s' in t <==> s' in trail || s' == s;
    var f :| f in trail && (f.filename, f.modified) == (w.firstReport, w.firstModified);
    var l :| l in trail && (l.filename, l.modified) == (w.lastReport, w.lastModified);
    assert f in t && l in t && s in t;
  }

  // ----- findings

  datatype FindingKey = FindingKey(category: string, nodes: multiset<string>, edges: multiset<string>)

  /** `key` gives the entry's category and affected lists. */
  datatype FindingEntry = FindingEntry(
    key: FindingKey, severity: Severity, description: string, remediation: string, attackIds: seq<string>,
    source: string, window: Window, maxCvss: real)

  function KeyOf(f: Finding): FindingKey {
    FindingKey(f.category, multiset(f.nodes), multiset(f.edges))
  }

  function NormSeverity(s: Option<Severity>): Severity { s.GetOr(Medium) }

  function Rank(s: Severity): nat {
    match s case Critical => 0 case High => 1 case Medium => 2 case Low => 3 case Info => 4
  }

  function AppendNew(ids: seq<string>, more: seq<string>): seq<string> {
    if more == [] then ids
    else
      var init, id := AppendNew(ids, more[..|more| - 1]), more[|more| - 1];
      if id == "" || id in init then init else init + [id]
  }

  function OpenFinding(s: Sighting<Finding>): FindingEntry {
    var f := s.what;
    FindingEntry(KeyOf(f), NormSeverity(f.severity), f.description, f.remediation, AppendNew([], f.attackIds),
                 if f.source != "" then f.source else "engine", OpenWindow(s.filename, s.modified), f.cvss)
  }

  /** A later sighting: the latest report wins the texts, the worst severity and impact stay. */
  function SeeFinding(e: FindingEntry, s: Sighting<Finding>): FindingEntry {
    var f, newer := s.what, s.modified > e.window.lastModified;
    FindingEntry(
      e.key,
      if Rank(NormSeverity(f.severity)) < Rank(e.severity) then NormSeverity(f.severity) else e.severity,
      if newer && f.description != "" then f.description else e.description,
      if newer && f.remediation != "" then f.remediation else e.remediation,
      AppendNew(e.attackIds, f.attackIds),
      e.source,
      SeeWindow(e.window, s.filename, s.modified),
      if f.cvss > e.maxCvss then f.cvss else e.maxCvss)
  }

  function FindingRules(): Rules<Sighting<Finding>, FindingKey, FindingEntry> {
    Rules((s: Sighting<Finding>) => Some(KeyOf(s.what)), OpenFinding, SeeFinding)
  }

  function FindingGroup(src: Source): seq<Sighting<Finding>> {
    if src.report.None? then []
    else
      var fs := src.report.value.findings;
      seq(|fs|, j requires 0 <= j < |fs| => Sighting(src.filename, src.modified, fs[j]))
  }

  function FindingGroups(srcs: seq<Source>): (gs: seq<seq<Sighting<Finding>>>)
    ensures |gs| == |srcs|
  {
    seq(|srcs|, i requires 0 <= i < |srcs| => FindingGroup(srcs[i]))
  }

  datatype SeverityCounts = SeverityCounts(critical: nat, high: nat, medium: nat, low: nat, info: nat) {
    function Bump(s: Severity): SeverityCounts {
      match s
      case Critical => this.(critical := critical + 1)
      case High => this.(high := high + 1)
      case Medium => this.(medium := medium + 1)
      case Low => this.(low := low + 1)
      case Info => this.(info := info + 1)
    }
    function Of(s: Severity): nat {
      match s case Critical => critical case High => high case Medium => medium case Low => low case Info => info
    }
    function Sum(): nat { critical + high + medium + low + info }
  }

  const NO_COUNTS := SeverityCounts(0, 0, 0, 0, 0)

  /** A report counts each of its keys once, with the severity of the key's first sighting there. */
  ghost function TallyWithin(c: SeverityCounts, group: seq<Sighting<Finding>>): SeverityCounts {
    if group == [] then c
    else
      var init, s := group[..|group| - 1], group[|group| - 1];
      if KeyOf(s.what) in KeysOf(FindingRules(), init) then TallyWithin(c, init)
      else TallyWithin(c, init).Bump(NormSeverity(s.what.severity))
  }

  ghost function Tally(groups: seq<seq<Sighting<Finding>>>): SeverityCounts {
    if groups == [] then NO_COUNTS
    else TallyWithin(Tally(groups[..|groups| - 1]), groups[|groups| - 1])
  }

  method MergeIds(ids: seq<string>, more: seq<string>) returns (r: seq<string>)
    ensures r == AppendNew(ids, more)
  {
    r := ids;
    for i := 0 to |more|
      invariant r == AppendNew(ids, more[..i])
    {
      assert more[..i + 1][..i] == more[..i];
      if more[i] != "" && more[i] !in r {
        r := r + [more[i]];
      }
    }
    assert more[..|more|] == more;
  }

  /** One finding: the dictionary entry, the per-report key set and the severity count. */
  method AddFinding(findings0: map<FindingKey, Slot<FindingEntry>>, seen0: set<FindingKey>, counts0: SeverityCounts,
                    s: Sighting<Finding>)
    returns (findings: map<FindingKey, Slot<FindingEntry>>, seen: set<FindingKey>, counts: SeverityCounts)
    ensures Fold(findings, seen) == Absorb(FindingRules(), Fold(findings0, seen0), s)
    ensures counts == if KeyOf(s.what) in seen0 then counts0 else counts0.Bump(NormSeverity(s.what.severity))
  {
    hide SeeFinding, OpenFinding, NormSeverity, SeverityCounts.Bump;
    findings, seen, counts := findings0, seen0, counts0;
    var key := KeyOf(s.what);
    var entry := if key in findings then SeeFinding(findings[key].entry, s) else OpenFinding(s);
    var occurrences := if key in findings then findings[key].reports else 0;
    if key !in seen {
      occurrences := occurrences + 1;
      counts := counts.Bump(NormSeverity(s.what.severity));
    }
    seen := seen + {key};
    findings := findings[key := Slot(entry, occurrences)];
  }

  lemma SeenAreKeys(findings0: map<FindingKey, Slot<FindingEntry>>, group: seq<Sighting<Finding>>)
    ensures Within(FindingRules(), Fold(findings0, {}), group).seen == KeysOf(FindingRules(), group)
  {
    WithinTotals(FindingRules(), findings0, group);
  }

  /** The findings loop over one report. */
  method AddFindings(src: Source, findings0: map<FindingKey, Slot<FindingEntry>>, counts0: SeverityCounts)
    returns (findings: map<FindingKey, Slot<FindingEntry>>, counts: SeverityCounts)
    ensures findings == Within(FindingRules(), Fold(findings0, {}), FindingGroup(src)).slots
    ensures counts == TallyWithin(counts0, FindingGroup(src))
  {
    hide FindingRules, Absorb, KeysOf, KeyOf, NormSeverity, SeverityCounts.Bump;
    findings, counts := findings0, counts0;
    if src.report.None? {
      return;
    }
    var fs := src.report.value.findings;
    ghost var group := FindingGroup(src);
    var seen: set<FindingKey> := {};
    for j := 0 to |fs|
      invariant Fold(findings, seen) == Within(FindingRules(), Fold(findings0, {}), group[..j])
      invariant counts == TallyWithin(counts0, group[..j])
    {
      assert group[..j + 1][..j] == group[..j];
      SeenAreKeys(findings0, group[..j]);
      findings, seen, counts := AddFinding(findings, seen, counts, Sighting(src.filename, src.modified, fs[j]));
    }
    assert group[..|fs|] == group;
  }

  method AggregateFindings(srcs: seq<Source>)
    returns (findings: map<FindingKey, Slot<FindingEntry>>, counts: SeverityCounts)
    ensures findings == Over(FindingRules(), FindingGroups(srcs))
    ensures counts == Tally(FindingGroups(srcs))
  {
    hide FindingRules, Within, TallyWithin, FindingGroup;
    findings, counts := map[], NO_COUNTS;
    ghost var groups := FindingGroups(srcs);
    for i := 0 to |srcs|
      invariant findings == Over(FindingRules(), groups[..i])
      invariant counts == Tally(groups[..i])
    {
      assert groups[..i + 1][..i] == groups[..i] && groups[i] == FindingGroup(srcs[i]);
      findings, counts := AddFindings(srcs[i], findings, counts);
    }
    assert groups[..|srcs|] == groups;
  }

  // ----- what a finding's entry says about its sightings

  /** The distinct non-empty ids of all sightings. */
  ghost predicate CollectsIds(ids: seq<string>, trail: seq<Sighting<Finding>>) {
    && Distinct(ids)
    && (forall id :: id in ids <==> id != "" && exists s :: s in trail && id in s.what.attackIds)
  }

  /** The finding counts with this severity: its own, or medium for any text outside the five names. */
  ghost predicate Reads(f: Finding, sev: Severity) { f.severity == Some(sev) || (f.severity == None && sev == Medium) }

  ghost predicate SomeReads(trail: seq<Sighting<Finding>>, sev: Severity) {
    exists s :: s in trail && Reads(s.what, sev)
  }

  /** Critical when some sighting is critical, high when none is critical and some is high, and so on down. */
  ghost predicate WorstIn(e: FindingEntry, trail: seq<Sighting<Finding>>) {
    && (e.severity == Critical <==> SomeReads(trail, Critical))
    && (e.severity == High <==> !SomeReads(trail, Critical) && SomeReads(trail, High))
    && (e.severity == Medium
        <==> !SomeReads(trail, Critical) && !SomeReads(trail, High) && SomeReads(trail, Medium))
    && (e.severity == Low
        <==> !SomeReads(trail, Critical) && !SomeReads(trail, High) && !SomeReads(trail, Medium)
             && SomeReads(trail, Low))
    && (e.severity == Info
        <==> !SomeReads(trail, Critical) && !SomeReads(trail, High) && !SomeReads(trail, Medium)
             && !SomeReads(trail, Low))
  }

  lemma WorstSnoc(e: FindingEntry, trail: seq<Sighting<Finding>>, s: Sighting<Finding>)
    requires trail != [] && WorstIn(e, trail) && SomeReads(trail, e.severity)
    ensures WorstIn(SeeFinding(e, s), trail + [s]) && SomeReads(trail + [s], SeeFinding(e, s).severity)
  {
    hide AppendNew, SeeWindow;
    var t := trail + [s];
    forall sev ensures SomeReads(t, sev) <==> SomeReads(trail, sev) || Reads(s.what, sev) {
      assert forall s' :: s' in t <==> s' in trail || s' == s;
    }
  }

  lemma WorstOne(s: Sighting<Finding>)
    ensures WorstIn(OpenFinding(s), [s]) && SomeReads([s], OpenFinding(s).severity)
  {
    hide AppendNew;
    assert forall sev :: SomeReads([s], sev) <==> Reads(s.what, sev);
  }

  lemma {:induction false} WorstReplay(trail: seq<Sighting<Finding>>)
    requires trail != []
    ensures WorstIn(Replay(FindingRules(), trail), trail)
    ensures SomeReads(trail, Replay(FindingRules(), trail).severity)
  {
    hide WorstIn, SomeReads, SeeFinding, OpenFinding;
    var init, s := trail[..|trail| - 1], trail[|trail| - 1];
    if |trail| == 1 {
      WorstOne(s);
      assert trail == [s];
    } else {
      WorstReplay(init);
      WorstSnoc(Replay(FindingRules(), init), init, s);
      assert init + [s] == trail;
    }
  }

  ghost predicate DescribesFinding(e: FindingEntry, trail: seq<Sighting<Finding>>) {
    && WindowOf(e.window, trail)
    && (exists s :: s in trail && s.what.cvss == e.maxCvss)
    && (forall s | s in trail :: s.what.cvss <= e.maxCvss)
    && CollectsIds(e.attackIds, trail)
  }

  lemma {:induction false} AppendNewCollects(ids: seq<string>, more: seq<string>)
    requires Distinct(ids)
    ensures Distinct(AppendNew(ids, more))
    ensures forall id :: id in AppendNew(ids, more) <==> id in ids || (id in more && id != "")
  {
    if more != [] {
      var init, last := more[..|more| - 1], more[|more| - 1];
      AppendNewCollects(ids, init);
      assert more == init + [last];
      assert forall id :: id in more <==> id in init || id == last;
    }
  }

  lemma IdsSnoc(ids: seq<string>, trail: seq<Sighting<Finding>>, s: Sighting<Finding>)
    requires CollectsIds(ids, trail)
    ensures CollectsIds(AppendNew(ids, s.what.attackIds), trail + [s])
  {
    hide AppendNew;
    AppendNewCollects(ids, s.what.attackIds);
    var ids', t := AppendNew(ids, s.what.attackIds), trail + [s];
    assert forall s' :: s' in t <==> s' in trail || s' == s;
    forall id ensures id in ids' <==> id != "" && exists s' :: s' in t && id in s'.what.attackIds {
      if id in ids {
        var s' :| s' in trail && id in s'.what.attackIds;
        assert s' in t;
      }
      assert s in t;
    }
  }

  lemma FindingSnoc(e: FindingEntry, trail: seq<Sighting<Finding>>, s: Sighting<Finding>)
    requires DescribesFinding(e, trail)
    ensures DescribesFinding(SeeFinding(e, s), trail + [s])
  {
    hide AppendNew, SeeWindow, WindowOf, CollectsIds;
    WindowSnoc(e.window, trail, s);
    IdsSnoc(e.attackIds, trail, s);
    var t := trail + [s];
    assert forall s' :: s' in t <==> s' in trail || s' == s;
    var c :| c in trail && c.what.cvss == e.maxCvss;
    assert c in t && s in t;
  }

  lemma FindingOpened(s: Sighting<Finding>)
    ensures DescribesFinding(OpenFinding(s), [s])
  {
    hide AppendNew;
    AppendNewCollects([], s.what.attackIds);
    assert s in [s];
  }

  lemma {:induction false} FindingReplay(trail: seq<Sighting<Finding>>)
    requires trail != []
    ensures DescribesFinding(Replay(FindingRules(), trail), trail)
  {
    hide DescribesFinding, SeeFinding, OpenFinding;
    var init, s := trail[..|trail| - 1], trail[|trail| - 1];
    if |trail| == 1 {
      FindingOpened(s);
      assert trail == [s];
    } else {
      FindingReplay(init);
      FindingSnoc(Replay(FindingRules(), init), init, s);
      assert init + [s] == trail;
    }
  }

  // ----- whose texts an entry shows

  datatype TextField = Description | Remediation

  function TextOf(s: Sighting<Finding>, field: TextField): string {
    if field == Description then s.what.description else s.what.remediation
  }

  function EntryText(e: FindingEntry, field: TextField): string {
    if field == Description then e.description else e.remediation
  }

  /** Sighting `j` is newer than all before it. */
  ghost predicate Newest(trail: seq<Sighting<Finding>>, j: int) {
    0 <= j < |trail| && forall i | 0 <= i < j :: trail[i].modified < trail[j].modified
  }

  /** The first sighting or a newest one with a text, and no later newest one has a text. */
  ghost predicate WinsText(trail: seq<Sighting<Finding>>, i: int, field: TextField) {
    && Newest(trail, i) && (i > 0 ==> TextOf(trail[i], field) != "")
    && forall j | i < j < |trail| && Newest(trail, j) :: TextOf(trail[j], field) == ""
  }

  lemma NewestOrNot(w: Window, trail: seq<Sighting<Finding>>, s: Sighting<Finding>)
    requires trail != [] && WindowOf(w, trail)
    ensures s.modified > w.lastModified <==> Newest(trail + [s], |trail|)
    ensures forall j | 0 <= j < |trail| :: Newest(trail + [s], j) <==> Newest(trail, j)
  {
    var n, t := |trail|, trail + [s];
    assert t[n] == s && forall i | 0 <= i < n :: t[i] == trail[i] && trail[i] in trail;
    if Newest(t, n) {
      var l :| l in trail && l.modified == w.lastModified;
      var i :| 0 <= i < n && trail[i] == l;
      assert t[i].modified < t[n].modified;
    }
  }

  lemma WinnerOfMore(trail: seq<Sighting<Finding>>, s: Sighting<Finding>, i: int, field: TextField)
    requires WinsText(trail, i, field)
    requires forall j | 0 <= j < |trail| :: Newest(trail + [s], j) <==> Newest(trail, j)
    ensures WinsText(trail + [s], if Newest(trail + [s], |trail|) && TextOf(s, field) != "" then |trail| else i, field)
  {
    hide Newest;
    var t := trail + [s];
    assert forall j | 0 <= j < |trail| :: t[j] == trail[j];
    assert Newest(trail, i) ==> 0 <= i < |trail| by { NewestInRange(trail, i); }
  }

  lemma NewestInRange(trail: seq<Sighting<Finding>>, i: int)
    requires Newest(trail, i)
    ensures 0 <= i < |trail|
  {
  }

  lemma ReplayedWindow(trail: seq<Sighting<Finding>>)
    requires trail != []
    ensures WindowOf(Replay(FindingRules(), trail).window, trail)
  {
    hide WindowOf, Replay, CollectsIds;
    FindingReplay(trail);
  }

  lemma {:induction false} FirstKeyStays(trail: seq<Sighting<Finding>>)
    requires trail != []
    ensures Replay(FindingRules(), trail).key == KeyOf(trail[0].what)
  {
    hide AppendNew, SeeWindow, NormSeverity, KeyOf;
    if |trail| > 1 {
      FirstKeyStays(trail[..|trail| - 1]);
    }
  }

  /** The source is that of the first sighting, "engine" when it names none. */
  lemma {:induction false} FirstSourceStays(trail: seq<Sighting<Finding>>)
    requires trail != []
    ensures Replay(FindingRules(), trail).source
      == if trail[0].what.source != "" then trail[0].what.source else "engine"
  {
    hide AppendNew, SeeWindow, NormSeverity;
    if |trail| > 1 {
      FirstSourceStays(trail[..|trail| - 1]);
    }
  }

  /** Description and remediation come from the latest report that has them: the last sighting that is
      newer than all before it and has the text, or else the first sighting. */
  lemma {:induction false} LatestTextWins(trail: seq<Sighting<Finding>>, field: TextField)
    requires trail != []
    ensures exists i | 0 <= i < |trail| ::
      WinsText(trail, i, field) && EntryText(Replay(FindingRules(), trail), field) == TextOf(trail[i], field)
  {
    hide AppendNew, SeeWindow, WindowOf, CollectsIds, Newest;
    var init, s := trail[..|trail| - 1], trail[|trail| - 1];
    if |trail| == 1 {
      FirstWins(trail, field);
    } else {
      hide WinsText;
      LatestTextWins(init, field);
      var e := Replay(FindingRules(), init);
      var i :| 0 <= i < |init| && WinsText(init, i, field) && EntryText(e, field) == TextOf(init[i], field);
      ReplayedWindow(init);
      NewestOrNot(e.window, init, s);
      WinnerOfMore(init, s, i, field);
      assert init + [s] == trail;
    }
  }

  lemma FirstWins(trail: seq<Sighting<Finding>>, field: TextField)
    requires |trail| == 1
    ensures WinsText(trail, 0, field)
  {
  }

  /** Report `i` is loadable and has finding `f` with key `k`. */
  ghost predicate Sees(srcs: seq<Source>, i: int, f: Finding, k: FindingKey) {
    && 0 <= i < |srcs| && srcs[i].report.Some? && f in srcs[i].report.value.findings
    && f.category == k.category && multiset(f.nodes) == k.nodes && multiset(f.edges) == k.edges
  }

  lemma SeesByKey(srcs: seq<Source>, i: int, f: Finding, k: FindingKey)
    ensures Sees(srcs, i, f, k)
      <==> 0 <= i < |srcs| && srcs[i].report.Some? && f in srcs[i].report.value.findings && KeyOf(f) == k
  {
  }

  ghost predicate Mentions(srcs: seq<Source>, i: int, k: FindingKey) { exists f :: Sees(srcs, i, f, k) }

  /** `s` is a finding of key `k` in some loadable report, with that report's name and stamp. */
  ghost predicate SightingOf(srcs: seq<Source>, k: FindingKey, s: Sighting<Finding>) {
    exists i :: Sees(srcs, i, s.what, k) && s.filename == srcs[i].filename && s.modified == srcs[i].modified
  }

  ghost function MentioningReports(srcs: seq<Source>, k: FindingKey): set<int> {
    set i | 0 <= i < |srcs| && Mentions(srcs, i, k)
  }

  lemma GroupMembers(src: Source, s: Sighting<Finding>)
    ensures s in FindingGroup(src) <==>
      && src.report.Some? && s.what in src.report.value.findings
      && s.filename == src.filename && s.modified == src.modified
  {
    if && src.report.Some? && s.what in src.report.value.findings
       && s.filename == src.filename && s.modified == src.modified {
      var fs := src.report.value.findings;
      var j :| 0 <= j < |fs| && fs[j] == s.what;
      assert FindingGroup(src)[j] == s;
    }
  }

  lemma FindingSighted(srcs: seq<Source>, s: Sighting<Finding>, k: FindingKey)
    ensures s in FullTrail(FindingRules(), FindingGroups(srcs), k) <==> SightingOf(srcs, k, s)
  {
    hide FullTrail, FindingGroup, KeyOf;
    var groups := FindingGroups(srcs);
    FullTrailMembers(FindingRules(), groups, k, s);
    if i :| 0 <= i < |groups| && s in groups[i] && KeyOf(s.what) == k {
      GroupMembers(srcs[i], s);
      SeesByKey(srcs, i, s.what, k);
    }
    if i :| Sees(srcs, i, s.what, k) && s.filename == srcs[i].filename && s.modified == srcs[i].modified {
      SeesByKey(srcs, i, s.what, k);
      GroupMembers(srcs[i], s);
      assert s in groups[i];
    }
  }

  lemma ReportMentions(srcs: seq<Source>, i: nat, k: FindingKey)
    requires i < |srcs|
    ensures Trail(FindingRules(), FindingGroups(srcs)[i], k) != [] <==> Mentions(srcs, i, k)
  {
    hide Trail, FindingGroup, KeyOf;
    var group := FindingGroups(srcs)[i];
    var trail := Trail(FindingRules(), group, k);
    if trail != [] {
      TrailMembers(FindingRules(), group, k, trail[0]);
      GroupMembers(srcs[i], trail[0]);
      SeesByKey(srcs, i, trail[0].what, k);
    }
    if f :| Sees(srcs, i, f, k) {
      SeesByKey(srcs, i, f, k);
      var s := Sighting(srcs[i].filename, srcs[i].modified, f);
      GroupMembers(srcs[i], s);
      TrailMembers(FindingRules(), group, k, s);
    }
  }

  /** For every list of reports and every finding key: the key has an entry exactly when some loadable
      report has it; `occurrences` is the number of such reports; severity is the worst by name, an unknown one
      read as medium, and impact the largest over all its sightings; first seen is the least non-empty stamp and
      last seen the greatest, each with the name of a report that has it; the ids are those of all sightings,
      once each. */
  lemma FindingRollup(srcs: seq<Source>, k: FindingKey)
    ensures var m := Over(FindingRules(), FindingGroups(srcs));
      && (k in m <==> exists i :: Mentions(srcs, i, k))
      && (k in m ==>
            && m[k].reports == |MentioningReports(srcs, k)| && m[k].entry.key == k
            && FindingSummary(m[k].entry, srcs, k))
  {
    hide FindingRules, FindingGroups, Over, FullTrail, Trail, Replay, DescribesFinding, WorstIn, FindingSummary, Sees;
    var r, groups := FindingRules(), FindingGroups(srcs);
    var trail := FullTrail(r, groups, k);
    OverReplays(r, groups, k);
    ReportsAreMentions(srcs, k);
    if trail != [] {
      FindingReplay(trail);
      WorstReplay(trail);
      DescribedIsSummary(srcs, k, trail, Replay(r, trail));
      FirstKeyStays(trail);
      SightedIsMentioned(srcs, trail[0], k);
    }
    if i :| Mentions(srcs, i, k) {
      var f :| Sees(srcs, i, f, k);
      MentionIsSighted(srcs, i, f, k);
    }
  }

  lemma SightedIsMentioned(srcs: seq<Source>, s: Sighting<Finding>, k: FindingKey)
    requires s in FullTrail(FindingRules(), FindingGroups(srcs), k)
    ensures KeyOf(s.what) == k && exists i :: Mentions(srcs, i, k)
  {
    hide FullTrail, FindingRules, FindingGroups;
    FindingSighted(srcs, s, k);
    var i :| Sees(srcs, i, s.what, k);
    assert Mentions(srcs, i, k);
  }

  lemma MentionIsSighted(srcs: seq<Source>, i: int, f: Finding, k: FindingKey)
    requires Sees(srcs, i, f, k)
    ensures FullTrail(FindingRules(), FindingGroups(srcs), k) != []
  {
    hide FullTrail, FindingRules, FindingGroups;
    var s := Sighting(srcs[i].filename, srcs[i].modified, f);
    assert SightingOf(srcs, k, s);
    FindingSighted(srcs, s, k);
  }

  lemma ReportsAreMentions(srcs: seq<Source>, k: FindingKey)
    ensures ReportsWith(FindingRules(), FindingGroups(srcs), k) == MentioningReports(srcs, k)
  {
    hide FindingRules, FindingGroups, Trail, Mentions;
    forall i | 0 <= i < |srcs|
      ensures Trail(FindingRules(), FindingGroups(srcs)[i], k) != [] <==> Mentions(srcs, i, k)
    {
      ReportMentions(srcs, i, k);
    }
  }

  /** Some sighting of the key counts with this severity. */
  ghost predicate Reported(srcs: seq<Source>, k: FindingKey, sev: Severity) {
    exists s :: SightingOf(srcs, k, s) && Reads(s.what, sev)
  }

  ghost predicate FindingSummary(e: FindingEntry, srcs: seq<Source>, k: FindingKey) {
    && (forall s | SightingOf(srcs, k, s) ::
          && s.what.cvss <= e.maxCvss
          && s.modified <= e.window.lastModified
          && (s.modified != 0 ==> 0 < e.window.firstModified <= s.modified))
    && (e.severity == Critical <==> Reported(srcs, k, Critical))
    && (e.severity == High <==> !Reported(srcs, k, Critical) && Reported(srcs, k, High))
    && (e.severity == Medium
        <==> !Reported(srcs, k, Critical) && !Reported(srcs, k, High) && Reported(srcs, k, Medium))
    && (e.severity == Low
        <==> !Reported(srcs, k, Critical) && !Reported(srcs, k, High) && !Reported(srcs, k, Medium)
             && Reported(srcs, k, Low))
    && (e.severity == Info
        <==> !Reported(srcs, k, Critical) && !Reported(srcs, k, High) && !Reported(srcs, k, Medium)
             && !Reported(srcs, k, Low))
    && (exists s :: SightingOf(srcs, k, s) && s.what.cvss == e.maxCvss)
    && (exists s :: SightingOf(srcs, k, s)
                    && s.filename == e.window.firstReport && s.modified == e.window.firstModified)
    && (exists s :: SightingOf(srcs, k, s)
                    && s.filename == e.window.lastReport && s.modified == e.window.lastModified)
    && Distinct(e.attackIds)
    && (forall id :: id in e.attackIds <==> id != "" && exists s :: SightingOf(srcs, k, s) && id in s.what.attackIds)
  }

  lemma DescribedIsSummary(srcs: seq<Source>, k: FindingKey, trail: seq<Sighting<Finding>>, e: FindingEntry)
    requires trail == FullTrail(FindingRules(), FindingGroups(srcs), k)
    requires DescribesFinding(e, trail) && WorstIn(e, trail)
    ensures FindingSummary(e, srcs, k)
  {
    hide FullTrail, FindingRules, FindingGroups, SightingOf, Reads;
    forall s ensures s in trail <==> SightingOf(srcs, k, s) {
      FindingSighted(srcs, s, k);
    }
  }

  // ----- whose name a window bears

  /** Sighting `i` is the first one stamped `m`, and its report is `file`. */
  ghost predicate FirstStamped<V>(trail: seq<Sighting<V>>, i: int, m: Stamp, file: string) {
    && 0 <= i < |trail| && trail[i].modified == m && trail[i].filename == file
    && forall j | 0 <= j < i :: trail[j].modified != m
  }

  ghost predicate BearsFirst<V(!new)>(w: Window, trail: seq<Sighting<V>>) {
    && (exists i :: FirstStamped(trail, i, w.firstModified, w.firstReport))
    && (exists i :: FirstStamped(trail, i, w.lastModified, w.lastReport))
  }

  lemma FirstStays<V>(trail: seq<Sighting<V>>, s: Sighting<V>, i: int, m: Stamp, file: string)
    requires FirstStamped(trail, i, m, file)
    ensures FirstStamped(trail + [s], i, m, file)
  {
  }

  lemma FirstJoins<V(!new)>(trail: seq<Sighting<V>>, s: Sighting<V>)
    requires forall s' | s' in trail :: s'.modified != s.modified
    ensures FirstStamped(trail + [s], |trail|, s.modified, s.filename)
  {
    assert forall j | 0 <= j < |trail| :: (trail + [s])[j] == trail[j] && trail[j] in trail;
  }

  lemma BearsFirstSnoc<V(!new)>(w: Window, trail: seq<Sighting<V>>, s: Sighting<V>)
    requires trail != [] && WindowOf(w, trail) && BearsFirst(w, trail)
    ensures BearsFirst(SeeWindow(w, s.filename, s.modified), trail + [s])
  {
    hide FirstStamped;
    var i :| FirstStamped(trail, i, w.firstModified, w.firstReport);
    var j :| FirstStamped(trail, j, w.lastModified, w.lastReport);
    FirstStays(trail, s, i, w.firstModified, w.firstReport);
    FirstStays(trail, s, j, w.lastModified, w.lastReport);
    if forall s' | s' in trail :: s'.modified != s.modified {
      FirstJoins(trail, s);
    }
  }

  lemma {:induction false} FindingBearsFirst(trail: seq<Sighting<Finding>>)
    requires trail != []
    ensures BearsFirst(Replay(FindingRules(), trail).window, trail)
  {
    hide WindowOf, BearsFirst, SeeWindow, AppendNew, NormSeverity;
    var init, s := trail[..|trail| - 1], trail[|trail| - 1];
    if |trail| == 1 {
      OnlyBearsFirst(s);
      assert trail == [s];
    } else {
      FindingBearsFirst(init);
      ReplayedWindow(init);
      BearsFirstSnoc(Replay(FindingRules(), init).window, init, s);
      assert init + [s] == trail;
    }
  }

  lemma OnlyBearsFirst<V(!new)>(s: Sighting<V>)
    ensures BearsFirst(OpenWindow(s.filename, s.modified), [s])
  {
    assert FirstStamped([s], 0, s.modified, s.filename);
  }

  /** Every sighting carries its report's name and stamp. */
  ghost predicate Attributed<V(!new)>(groups: seq<seq<Sighting<V>>>, srcs: seq<Source>) {
    && |groups| == |srcs|
    && forall i, s | 0 <= i < |srcs| && s in groups[i] ::
         s.filename == srcs[i].filename && s.modified == srcs[i].modified
  }

  /** Report `i` has the key, with stamp `m` and name `file`, and no earlier one that has the key has that stamp. */
  ghost predicate FirstWith(srcs: seq<Source>, has: int -> bool, i: int, m: Stamp, file: string) {
    && 0 <= i < |srcs| && has(i) && srcs[i].modified == m && srcs[i].filename == file
    && forall j | 0 <= j < i && has(j) :: srcs[j].modified != m
  }

  lemma FirstStampedReport<V(!new), K(!new), E>(r: Rules<Sighting<V>, K, E>, srcs: seq<Source>,
                                                groups: seq<seq<Sighting<V>>>, k: K, has: int -> bool, a: int,
                                                m: Stamp, file: string)
    requires Attributed(groups, srcs) && FirstStamped(FullTrail(r, groups, k), a, m, file)
    requires forall i | 0 <= i < |srcs| :: has(i) <==> Trail(r, groups[i], k) != []
    ensures exists i :: FirstWith(srcs, has, i, m, file)
  {
    hide FullTrail, Trail, Origins;
    var trail, from := FullTrail(r, groups, k), Origins(r, groups, k);
    OriginsInOrder(r, groups, k);
    forall b | 0 <= b < |trail|
      ensures trail[b].filename == srcs[from[b]].filename && trail[b].modified == srcs[from[b]].modified
    {
      TrailMembers(r, groups[from[b]], k, trail[b]);
    }
    var i := from[a];
    forall j | 0 <= j < i && has(j) ensures srcs[j].modified != m {
      OriginOf(r, groups, k, j);
      var b :| 0 <= b < |from| && from[b] == j;
      assert b < a;
    }
    assert FirstWith(srcs, has, i, m, file);
  }

  lemma FindingsAttributed(srcs: seq<Source>)
    ensures Attributed(FindingGroups(srcs), srcs)
  {
    forall i, s | 0 <= i < |srcs| && s in FindingGroups(srcs)[i]
      ensures s.filename == srcs[i].filename && s.modified == srcs[i].modified
    {
      GroupMembers(srcs[i], s);
    }
  }

  /** Among reports with one stamp the first names the window: first seen and last seen of a finding bear the name of
      the first report, of those that have the key, with that stamp. */
  lemma FindingTies(srcs: seq<Source>, k: FindingKey)
    ensures var m, has := Over(FindingRules(), FindingGroups(srcs)), (i: int) => Mentions(srcs, i, k);
      k in m ==>
        var w := m[k].entry.window;
        && (exists i :: FirstWith(srcs, has, i, w.firstModified, w.firstReport))
        && (exists i :: FirstWith(srcs, has, i, w.lastModified, w.lastReport))
  {
    hide FindingRules, FindingGroups, Over, FullTrail, Trail, Replay, Mentions, FirstStamped, FirstWith, ReportsWith,
      Attributed;
    var r, groups := FindingRules(), FindingGroups(srcs);
    var trail, has := FullTrail(r, groups, k), (i: int) => Mentions(srcs, i, k);
    OverReplays(r, groups, k);
    FindingsAttributed(srcs);
    forall i | 0 <= i < |srcs| ensures has(i) <==> Trail(r, groups[i], k) != [] {
      ReportMentions(srcs, i, k);
    }
    if trail != [] {
      FindingBearsFirst(trail);
      var w := Replay(r, trail).window;
      var a :| FirstStamped(trail, a, w.firstModified, w.firstReport);
      var b :| FirstStamped(trail, b, w.lastModified, w.lastReport);
      FirstStampedReport(r, srcs, groups, k, has, a, w.firstModified, w.firstReport);
      FirstStampedReport(r, srcs, groups, k, has, b, w.lastModified, w.lastReport);
    }
  }

  // ----- severity counts

  lemma Bumped(c: SeverityCounts, s: Severity, sev: Severity)
    ensures c.Bump(s).Sum() == c.Sum() + 1
    ensures c.Bump(s).Of(sev) == c.Of(sev) + if s == sev then 1 else 0
  {
  }

  lemma KeysOfSnoc(group: seq<Sighting<Finding>>)
    requires group != []
    ensures var n := |group| - 1;
      KeysOf(FindingRules(), group) == KeysOf(FindingRules(), group[..n]) + {KeyOf(group[n].what)}
  {
    hide KeyOf;
  }

  lemma {:induction false} TallyWithinSum(c: SeverityCounts, group: seq<Sighting<Finding>>)
    ensures TallyWithin(c, group).Sum() == c.Sum() + |KeysOf(FindingRules(), group)|
  {
    hide SeverityCounts.Bump, SeverityCounts.Sum, NormSeverity, KeyOf;
    if group != [] {
      var init, s := group[..|group| - 1], group[|group| - 1];
      TallyWithinSum(c, init);
      Bumped(TallyWithin(c, init), NormSeverity(s.what.severity), Info);
      KeysOfSnoc(group);
      SizeWith(KeysOf(FindingRules(), init), KeyOf(s.what));
    }
  }

  lemma {:induction false} TallySum(groups: seq<seq<Sighting<Finding>>>)
    ensures Tally(groups).Sum() == KeyCount(FindingRules(), groups)
  {
    hide FindingRules, KeysOf, TallyWithin;
    if groups != [] {
      TallySum(groups[..|groups| - 1]);
      TallyWithinSum(Tally(groups[..|groups| - 1]), groups[|groups| - 1]);
    }
  }

  /** `severity_counts` sums to the occurrences of all findings. */
  lemma SeverityCountsSumToOccurrences(srcs: seq<Source>)
    ensures Tally(FindingGroups(srcs)).Sum() == TotalReports(Over(FindingRules(), FindingGroups(srcs)))
  {
    hide FindingRules, Over;
    TallySum(FindingGroups(srcs));
    TotalsAgree(FindingRules(), FindingGroups(srcs));
  }

  /** The positions in a report that first mention their key, with the given severity. */
  ghost predicate FirstMention(group: seq<Sighting<Finding>>, j: int, sev: Severity) {
    && 0 <= j < |group| && Reads(group[j].what, sev)
    && forall j' | 0 <= j' < j :: KeyOf(group[j'].what) != KeyOf(group[j].what)
  }

  ghost function FirstMentions(group: seq<Sighting<Finding>>, sev: Severity): set<int> {
    set j | 0 <= j < |group| && FirstMention(group, j, sev)
  }

  lemma FirstMentionPrefix(group: seq<Sighting<Finding>>, n: nat, j: nat, sev: Severity)
    requires j < n <= |group|
    ensures FirstMention(group, j, sev) <==> FirstMention(group[..n], j, sev)
  {
    hide KeyOf, NormSeverity;
    assert forall j' | 0 <= j' <= j :: group[..n][j'] == group[j'];
  }

  lemma FirstMentionsSnoc(group: seq<Sighting<Finding>>, sev: Severity)
    requires group != []
    ensures var n := |group| - 1;
      |FirstMentions(group, sev)| == |FirstMentions(group[..n], sev)| + if FirstMention(group, n, sev) then 1 else 0
  {
    var n := |group| - 1;
    hide FirstMention;
    forall j | 0 <= j < n ensures FirstMention(group, j, sev) <==> FirstMention(group[..n], j, sev) {
      FirstMentionPrefix(group, n, j, sev);
    }
    assert FirstMentions(group, sev)
      == FirstMentions(group[..n], sev) + if FirstMention(group, n, sev) then {n} else {};
  }

  /** Each severity counts the first mentions that carry it. */
  lemma {:induction false} TallyCountsFirstMentions(c: SeverityCounts, group: seq<Sighting<Finding>>, sev: Severity)
    ensures TallyWithin(c, group).Of(sev) == c.Of(sev) + |FirstMentions(group, sev)|
  {
    hide SeverityCounts.Bump, SeverityCounts.Of, KeysOf, FirstMentions;
    if group == [] {
      NoMentions(sev);
    } else {
      var n := |group| - 1;
      var init, s := group[..n], group[n];
      TallyCountsFirstMentions(c, init, sev);
      KeysAreMentioned(init, KeyOf(s.what));
      FirstMentionsSnoc(group, sev);
      Bumped(TallyWithin(c, init), NormSeverity(s.what.severity), sev);
    }
  }

  lemma NoMentions(sev: Severity)
    ensures FirstMentions([], sev) == {}
  {
  }

  lemma {:induction false} KeysAreMentioned(group: seq<Sighting<Finding>>, k: FindingKey)
    ensures k in KeysOf(FindingRules(), group) <==> exists j | 0 <= j < |group| :: KeyOf(group[j].what) == k
  {
    if group != [] {
      var n := |group| - 1;
      KeysAreMentioned(group[..n], k);
      if j :| 0 <= j < |group| && KeyOf(group[j].what) == k {
        assert j == n || group[..n][j] == group[j];
      }
      if j :| 0 <= j < n && KeyOf(group[..n][j].what) == k {
        assert group[j] == group[..n][j];
      }
    }
  }
}
