/** The profile of one asset read off the reports: which reports have it, which conversations, findings and
    anomalies concern it, and what they add to its rows. */
module AssetProfile {
  import opened Collections
  import opened Wrappers
  import opened Rollup
  import opened Baselines

  // ----- the reports that have the asset

  ghost predicate IsAsked(n: Node, key: string, byMac: bool) { (byMac && n.mac == key) || (!byMac && n.ip == key) }

  /** Node `j` is the first of the report that has the asked address. */
  ghost predicate FirstAsked(ns: seq<Node>, j: int, key: string, byMac: bool) {
    0 <= j < |ns| && IsAsked(ns[j], key, byMac) && forall i | 0 <= i < j :: !IsAsked(ns[i], key, byMac)
  }

  lemma {:induction false} NodeFound(ns: seq<Node>, key: string, byMac: bool)
    ensures FindNode(ns, key, byMac).None? ==> forall j :: !FirstAsked(ns, j, key, byMac)
    ensures FindNode(ns, key, byMac).Some? ==>
      exists j :: FirstAsked(ns, j, key, byMac) && ns[j] == FindNode(ns, key, byMac).value
  {
    if ns != [] {
      if IsAsked(ns[0], key, byMac) {
        assert FirstAsked(ns, 0, key, byMac);
      } else {
        var rest := ns[1..];
        NodeFound(rest, key, byMac);
        forall j ensures FirstAsked(ns, j, key, byMac) <==> FirstAsked(rest, j - 1, key, byMac) {
          assert forall i | 0 < i < |ns| :: ns[i] == rest[i - 1];
          assert forall i | 0 <= i < |rest| :: rest[i] == ns[i + 1];
        }
        if j :| FirstAsked(rest, j, key, byMac) && rest[j] == FindNode(rest, key, byMac).value {
          assert FirstAsked(ns, j + 1, key, byMac);
        }
      }
    }
  }

  /** The reports below `n` that have the asset. */
  ghost function Having(reports: seq<Report>, n: nat, key: string, byMac: bool): set<nat>
    requires n <= |reports|
  {
    set i: nat | i < n && exists j :: FirstAsked(reports[i].nodes, j, key, byMac)
  }

  lemma HavingSnoc(reports: seq<Report>, n: nat, key: string, byMac: bool)
    requires n < |reports|
    ensures |Having(reports, n + 1, key, byMac)|
      == |Having(reports, n, key, byMac)| + if exists j :: FirstAsked(reports[n].nodes, j, key, byMac) then 1 else 0
  {
    hide FirstAsked;
    var before, after := Having(reports, n, key, byMac), Having(reports, n + 1, key, byMac);
    assert forall i: nat | i != n :: i in after <==> i in before;
    if n in after {
      assert after == before + {n};
    } else {
      assert after == before;
    }
  }

  lemma {:induction false} PresenceCount(reports: seq<Report>, n: nat, key: string, byMac: bool)
    requires n <= |reports|
    ensures |Presences(reports[..n], key, byMac)| == |Having(reports, n, key, byMac)|
  {
    hide FirstAsked, FindNode;
    if n == 0 {
      assert Having(reports, 0, key, byMac) == {};
    } else {
      hide Having;
      PresenceCount(reports, n - 1, key, byMac);
      HavingSnoc(reports, n - 1, key, byMac);
      NodeFound(reports[n - 1].nodes, key, byMac);
      assert reports[..n][..n - 1] == reports[..n - 1];
    }
  }

  lemma {:induction false} PresenceAt(reports: seq<Report>, n: nat, key: string, byMac: bool, i: nat, j: int)
    requires i < n <= |reports| && FirstAsked(reports[i].nodes, j, key, byMac)
    ensures var ps, at := Presences(reports[..n], key, byMac), |Having(reports, i, key, byMac)|;
      at < |ps| && ps[at] == Presence(reports[i], reports[i].nodes[j])
  {
    assert reports[..n][..n - 1] == reports[..n - 1];
    if i < n - 1 {
      hide FindNode, Having, FirstAsked;
      PresenceAt(reports, n - 1, key, byMac, i, j);
    } else {
      PresenceCount(reports, i, key, byMac);
      NodeFound(reports[i].nodes, key, byMac);
      var ns := reports[i].nodes;
      var j' :| FirstAsked(ns, j', key, byMac) && ns[j'] == FindNode(ns, key, byMac).value;
      assert j == j';
    }
  }

  /** The presences are the reports with a node of the asked address, MAC or IP as asked, in order, each with its
      first such node. */
  lemma PresencesByFields(reports: seq<Report>, key: string, byMac: bool)
    ensures var ps := Presences(reports, key, byMac);
      && |ps| == |Having(reports, |reports|, key, byMac)|
      && forall i: nat, j | i < |reports| && FirstAsked(reports[i].nodes, j, key, byMac) ::
           var at := |Having(reports, i, key, byMac)|;
           at < |ps| && 0 <= j < |reports[i].nodes| && ps[at] == Presence(reports[i], reports[i].nodes[j])
  {
    hide Presences, Having, FirstAsked;
    assert reports[..|reports|] == reports;
    PresenceCount(reports, |reports|, key, byMac);
    forall i: nat, j | i < |reports| && FirstAsked(reports[i].nodes, j, key, byMac)
      ensures var ps, at := Presences(reports, key, byMac), |Having(reports, i, key, byMac)|;
        at < |ps| && 0 <= j < |reports[i].nodes| && ps[at] == Presence(reports[i], reports[i].nodes[j])
    {
      AskedInRange(reports[i].nodes, j, key, byMac);
      PresenceAt(reports, |reports|, key, byMac, i, j);
    }
  }

  lemma AskedInRange(ns: seq<Node>, j: int, key: string, byMac: bool)
    requires FirstAsked(ns, j, key, byMac)
    ensures 0 <= j < |ns|
  {
  }

  // ----- what concerns the asset

  /** The conversation's other end, by IP before MAC and by source before destination, passing over empty ends. */
  ghost predicate PeerIs(c: Conv, n: Node, k: string) {
    var bySrc, byDst := n.ip != "" && c.srcIp == n.ip && c.dstIp != "", n.ip != "" && c.dstIp == n.ip && c.srcIp != "";
    && k != ""
    && (|| (bySrc && k == c.dstIp)
        || (!bySrc && byDst && k == c.srcIp)
        || (!bySrc && !byDst && n.mac != "" && c.srcMac == n.mac && k == c.dstIp)
        || (!bySrc && !byDst && n.mac != "" && c.dstMac == n.mac && k == c.srcIp
            && !(c.srcMac == n.mac && c.dstIp != "")))
  }

  ghost predicate CategoryIs(f: Finding, n: Node, k: string) {
    k == f.category != "" && exists ref :: ref in f.affected && ref != "" && (ref == n.ip || ref == n.mac)
  }

  ghost predicate KindIs(a: Anomaly, n: Node, k: string) {
    k == a.kind != "" && n.mac != "" && n.mac in {a.srcMac, a.dstMac}
  }

  lemma PeerByFields(c: Conv, n: Node, k: string)
    ensures PeerOf(c, n) == Some(k) <==> PeerIs(c, n, k)
  {
  }

  lemma CategoryByFields(f: Finding, n: Node, k: string)
    ensures CategoryOf(f, n) == Some(k) <==> CategoryIs(f, n, k)
  {
    if CategoryIs(f, n, k) {
      var ref :| ref in f.affected && ref != "" && (ref == n.ip || ref == n.mac);
      assert Names(ref, n);
    }
  }

  lemma KindByFields(a: Anomaly, n: Node, k: string)
    ensures KindOf(a, n) == Some(k) <==> KindIs(a, n, k)
  {
  }

  ghost predicate PeerSeen(ps: seq<Presence>, k: string, s: Sighting, i: int, c: Conv) {
    && 0 <= i < |ps| && c in ps[i].report.convs && PeerIs(c, ps[i].node, k)
    && s == Sighting(ps[i].report.filename, ps[i].report.ts, Some(k), c.packets)
  }

  ghost predicate FindingSeen(ps: seq<Presence>, k: string, s: Sighting, i: int, f: Finding) {
    && 0 <= i < |ps| && f in ps[i].report.findings && CategoryIs(f, ps[i].node, k)
    && s == Sighting(ps[i].report.filename, ps[i].report.ts, Some(k), 0)
  }

  ghost predicate AnomalySeen(ps: seq<Presence>, k: string, s: Sighting, i: int, a: Anomaly) {
    && 0 <= i < |ps| && a in ps[i].report.anomalies && KindIs(a, ps[i].node, k)
    && s == Sighting(ps[i].report.filename, ps[i].report.ts, Some(k), 0)
  }

  /** The sightings of a peer are the asset's conversations with it, one each, under their report's name and time. */
  lemma PeerSightings(ps: seq<Presence>, k: string, s: Sighting)
    ensures s in FullTrail(HistoryRules(), PeerGroups(ps), k) <==> exists i, c :: PeerSeen(ps, k, s, i, c)
  {
    hide FullTrail, PeerOf, PeerIs;
    var groups := PeerGroups(ps);
    FullTrailMembers(HistoryRules(), groups, k, s);
    forall c, n ensures PeerOf(c, n) == Some(k) <==> PeerIs(c, n, k) {
      PeerByFields(c, n, k);
    }
    if i :| 0 <= i < |groups| && s in groups[i] && s.name == Some(k) {
      var j :| 0 <= j < |groups[i]| && groups[i][j] == s;
      assert PeerSeen(ps, k, s, i, ps[i].report.convs[j]);
    }
    if i, c :| PeerSeen(ps, k, s, i, c) {
      var j :| 0 <= j < |ps[i].report.convs| && ps[i].report.convs[j] == c;
      assert groups[i][j] == s;
    }
  }

  lemma FindingSightings(ps: seq<Presence>, k: string, s: Sighting)
    ensures s in FullTrail(HistoryRules(), FindingGroups(ps), k) <==> exists i, f :: FindingSeen(ps, k, s, i, f)
  {
    hide FullTrail, CategoryOf, CategoryIs;
    var groups := FindingGroups(ps);
    FullTrailMembers(HistoryRules(), groups, k, s);
    forall f, n ensures CategoryOf(f, n) == Some(k) <==> CategoryIs(f, n, k) {
      CategoryByFields(f, n, k);
    }
    if i :| 0 <= i < |groups| && s in groups[i] && s.name == Some(k) {
      var j :| 0 <= j < |groups[i]| && groups[i][j] == s;
      assert FindingSeen(ps, k, s, i, ps[i].report.findings[j]);
    }
    if i, f :| FindingSeen(ps, k, s, i, f) {
      var j :| 0 <= j < |ps[i].report.findings| && ps[i].report.findings[j] == f;
      assert groups[i][j] == s;
    }
  }

  lemma AnomalySightings(ps: seq<Presence>, k: string, s: Sighting)
    ensures s in FullTrail(HistoryRules(), AnomalyGroups(ps), k) <==> exists i, a :: AnomalySeen(ps, k, s, i, a)
  {
    hide FullTrail, KindOf, KindIs;
    var groups := AnomalyGroups(ps);
    FullTrailMembers(HistoryRules(), groups, k, s);
    forall a, n ensures KindOf(a, n) == Some(k) <==> KindIs(a, n, k) {
      KindByFields(a, n, k);
    }
    if i :| 0 <= i < |groups| && s in groups[i] && s.name == Some(k) {
      var j :| 0 <= j < |groups[i]| && groups[i][j] == s;
      assert AnomalySeen(ps, k, s, i, ps[i].report.anomalies[j]);
    }
    if i, a :| AnomalySeen(ps, k, s, i, a) {
      var j :| 0 <= j < |ps[i].report.anomalies| && ps[i].report.anomalies[j] == a;
      assert groups[i][j] == s;
    }
  }

  /** A peer row, read off the reports: it exists exactly when some presence has a conversation with that peer; no
      such report comes before its first one or after its last one, by time and then by file name, and both are
      reports with such a conversation. */
  lemma PeerRow(ps: seq<Presence>, k: string)
    ensures var rows := ViewOf(PeerGroups(ps)).rows;
      && (k in rows <==> exists s, i, c :: PeerSeen(ps, k, s, i, c))
      && (k in rows ==>
            var e := rows[k].entry;
            && (forall s, i, c | PeerSeen(ps, k, s, i, c) ::
                  && (e.firstTs < s.ts || (e.firstTs == s.ts && e.firstFile <= s.filename))
                  && (s.ts < e.lastTs || (e.lastTs == s.ts && s.filename <= e.lastFile)))
            && (exists s, i, c :: PeerSeen(ps, k, s, i, c) && (s.ts, s.filename) == (e.firstTs, e.firstFile))
            && (exists s, i, c :: PeerSeen(ps, k, s, i, c) && (s.ts, s.filename) == (e.lastTs, e.lastFile)))
  {
    hide FullTrail, PeerGroups, PeerSeen, ViewOf, HistoryRules;
    var trail := FullTrail(HistoryRules(), PeerGroups(ps), k);
    RowDescribes(PeerGroups(ps), k);
    forall s ensures s in trail <==> exists i, c :: PeerSeen(ps, k, s, i, c) {
      PeerSightings(ps, k, s);
    }
    if trail != [] {
      assert trail[0] in trail;
    }
    if s, i, c :| PeerSeen(ps, k, s, i, c) {
      assert s in trail;
    }
  }

  // ----- protocols

  ghost predicate Concerns(c: Conv, n: Node) {
    (n.ip != "" && n.ip in {c.srcIp, c.dstIp}) || (n.mac != "" && n.mac in {c.srcMac, c.dstMac})
  }

  /** The packets of the asset's conversations in protocol `k`. */
  ghost function Carried(cs: seq<Conv>, n: Node, k: string): int {
    if cs == [] then 0
    else
      var c := cs[|cs| - 1];
      Carried(cs[..|cs| - 1], n, k) + if c.protocol == k && k != "" && Concerns(c, n) then c.packets else 0
  }

  lemma {:induction false} TrafficByFields(cs: seq<Conv>, n: Node, k: string)
    ensures PacketsOf(Traffic(cs, n), k) == Carried(cs, n, k)
    ensures k in Traffic(cs, n) <==> k != "" && exists c :: c in cs && c.protocol == k && Concerns(c, n)
  {
    if cs != [] {
      var init, c := cs[..|cs| - 1], cs[|cs| - 1];
      TrafficByFields(init, n, k);
      assert Involves(c, n) <==> Concerns(c, n);
      hide Involves, Concerns;
      assert cs == init + [c];
      assert forall c' :: c' in cs <==> c' in init || c' == c;
    }
  }

  /** A presence has a protocol when its node lists it or a conversation of the asset uses it. */
  lemma ProtocolsByFields(p: Presence, k: string)
    ensures k in Protocols(p)
      <==> k != "" && (k in p.node.protocols
                       || exists c :: c in p.report.convs && c.protocol == k && Concerns(c, p.node))
  {
    hide Traffic, Concerns;
    TrafficByFields(p.report.convs, p.node, k);
  }

  /** The presences below `n` with the protocol. */
  ghost function Using(ps: seq<Presence>, n: nat, k: string): set<nat>
    requires n <= |ps|
  {
    set i: nat | i < n && k in Protocols(ps[i])
  }

  lemma UsingSnoc(ps: seq<Presence>, n: nat, k: string)
    requires n < |ps|
    ensures |Using(ps, n + 1, k)| == |Using(ps, n, k)| + if k in Protocols(ps[n]) then 1 else 0
  {
    hide Protocols;
    var before, after := Using(ps, n, k), Using(ps, n + 1, k);
    assert forall i: nat | i != n :: i in after <==> i in before;
    if n in after {
      assert after == before + {n};
    } else {
      assert after == before;
    }
  }

  lemma {:induction false} AppearanceCount(ps: seq<Presence>, n: nat, baseline: set<string>, k: string)
    requires n <= |ps|
    ensures |Appearances(ps[..n], baseline, k)| == |Using(ps, n, k)|
  {
    hide Protocols, AppearanceIn;
    if n == 0 {
      assert Using(ps, 0, k) == {};
    } else {
      hide Using;
      AppearanceCount(ps, n - 1, baseline, k);
      UsingSnoc(ps, n - 1, k);
      assert ps[..n][..n - 1] == ps[..n - 1];
    }
  }

  lemma {:induction false} AppearanceAt(ps: seq<Presence>, n: nat, baseline: set<string>, k: string, i: nat)
    requires i < n <= |ps| && k in Protocols(ps[i])
    ensures var shown, at := Appearances(ps[..n], baseline, k), |Using(ps, i, k)|;
      at < |shown| && shown[at] == AppearanceIn(ps[i], baseline, k)
  {
    hide Protocols, AppearanceIn, Using;
    assert ps[..n][..n - 1] == ps[..n - 1];
    if i < n - 1 {
      AppearanceAt(ps, n - 1, baseline, k, i);
    } else {
      AppearanceCount(ps, i, baseline, k);
    }
  }

  /** A protocol of the profile appears once for each presence that has it, in order, with that report's name and
      time and the packets of the asset's conversations in it, and is flagged new exactly when no presence before the
      last one has it. */
  lemma ProtocolRow(ps: seq<Presence>, k: string)
    requires ps != []
    ensures var rows := ProfileOf(ps).protocols;
      && (k in rows <==> exists i :: 0 <= i < |ps| && k in Protocols(ps[i]))
      && (k in rows ==>
            && |rows[k]| == |Using(ps, |ps|, k)|
            && forall i: nat | i < |ps| && k in Protocols(ps[i]) ::
                 var r, at := ps[i].report, |Using(ps, i, k)|;
                 at < |rows[k]|
                 && rows[k][at] == Appearance(r.filename, r.ts, Carried(r.convs, ps[i].node, k),
                                              forall j | 0 <= j < |ps| - 1 :: k !in Protocols(ps[j])))
  {
    hide Protocols, Using, Appearances, ViewOf, Over, Entries, PreviousNames, LatestNames, PreviousProtocols;
    var baseline := BaselineProtocols(ps);
    AllAreUsed(ps, k);
    AllAreUsed(ps[..|ps| - 1], k);
    assert k in baseline <==> !forall j | 0 <= j < |ps| - 1 :: k !in Protocols(ps[j]);
    assert ps[..|ps|] == ps;
    AppearanceCount(ps, |ps|, baseline, k);
    forall i: nat | i < |ps| && k in Protocols(ps[i])
      ensures |Using(ps, i, k)| < |Appearances(ps, baseline, k)|
      ensures Appearances(ps, baseline, k)[|Using(ps, i, k)|] == AppearanceIn(ps[i], baseline, k)
      ensures AppearanceIn(ps[i], baseline, k).packets == Carried(ps[i].report.convs, ps[i].node, k)
    {
      AppearanceAt(ps, |ps|, baseline, k, i);
      TrafficByFields(ps[i].report.convs, ps[i].node, k);
    }
  }

  lemma {:induction false} AllAreUsed(ps: seq<Presence>, k: string)
    ensures k in AllProtocols(ps) <==> exists i :: 0 <= i < |ps| && k in Protocols(ps[i])
  {
    hide Protocols;
    if ps != [] {
      AllAreUsed(ps[..|ps| - 1], k);
      assert forall i | 0 <= i < |ps| - 1 :: ps[..|ps| - 1][i] == ps[i];
    }
  }

  // ----- the change between the last two presences

  /** The delta counts and names what the last presence has and the one before it has not, and conversely; a single
      presence is compared with nothing. */
  lemma ProtocolDelta(ps: seq<Presence>, k: string)
    requires ps != []
    ensures var n, d := |ps|, ProfileOf(ps).protocolDelta;
      && (k in d.added <==> k in Protocols(ps[n - 1]) && !(n >= 2 && k in Protocols(ps[n - 2])))
      && (k in d.removed <==> n >= 2 && k in Protocols(ps[n - 2]) && k !in Protocols(ps[n - 1]))
      && d.lastCount == |Protocols(ps[n - 1])| && d.previousCount == (if n >= 2 then |Protocols(ps[n - 2])| else 0)
      && d.addedCount == |d.added| && d.removedCount == |d.removed|
  {
    hide Protocols, ViewOf, Over, Entries, PreviousNames, LatestNames, ProtocolHistory, BaselineProtocols;
  }

  /** The same for the sightings of any kind of item. */
  lemma SightingDelta(groups: seq<seq<Sighting>>, k: string)
    ensures var n, d := |groups|, ViewOf(groups).delta;
      && (k in d.added <==> n >= 1 && MentionedIn(groups[n - 1], k) && !(n >= 2 && MentionedIn(groups[n - 2], k)))
      && (k in d.removed <==> n >= 2 && MentionedIn(groups[n - 2], k) && !MentionedIn(groups[n - 1], k))
      && d.addedCount == |d.added| && d.removedCount == |d.removed|
  {
    hide Over, FullTrail, Files, BaselineNames, KeysOf, HistoryRules, MentionedIn;
    var n := |groups|;
    if n >= 1 {
      NamedExactly(groups[n - 1], k);
    }
    if n >= 2 {
      NamedExactly(groups[n - 2], k);
    }
  }

  ghost predicate MentionedIn(group: seq<Sighting>, k: string) { exists s :: s in group && s.name == Some(k) }

  lemma {:induction false} NamedExactly(group: seq<Sighting>, k: string)
    ensures k in KeysOf(HistoryRules(), group) <==> MentionedIn(group, k)
  {
    if group != [] {
      var init, s := group[..|group| - 1], group[|group| - 1];
      NamedExactly(init, k);
      assert group == init + [s];
      assert forall s' :: s' in group <==> s' in init || s' == s;
    }
  }
}
