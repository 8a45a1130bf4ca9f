/** The single-pass dictionary fold that the roll-ups over reports share: one slot per key, opened at
    its first sighting, updated at the later ones, with a count of the reports that mention the key. */
module Rollup {
  import opened Collections
  import opened Wrappers

  datatype Slot<E> = Slot(entry: E, reports: nat)

  /** `seen` holds the keys met so far in the current report. */
  datatype Fold<K, E> = Fold(slots: map<K, Slot<E>>, seen: set<K>)

  datatype Rules<!S, !K, !E> = Rules(key: S -> Option<K>, open: S -> E, see: (E, S) -> E)

  ghost function Absorb<S, K, E>(r: Rules<S, K, E>, f: Fold<K, E>, s: S): Fold<K, E> {
    match r.key(s)
    case None => f
    case Some(k) =>
      var entry := if k in f.slots then r.see(f.slots[k].entry, s) else r.open(s);
      var reports := (if k in f.slots then f.slots[k].reports else 0) + if k in f.seen then 0 else 1;
      Fold(f.slots[k := Slot(entry, reports)], f.seen + {k})
  }

  ghost function Within<S, K, E>(r: Rules<S, K, E>, f: Fold<K, E>, report: seq<S>): Fold<K, E> {
    if report == [] then f
    else Absorb(r, Within(r, f, report[..|report| - 1]), report[|report| - 1])
  }

  ghost function Over<S, K, E>(r: Rules<S, K, E>, reports: seq<seq<S>>): map<K, Slot<E>> {
    if reports == [] then map[]
    else Within(r, Fold(Over(r, reports[..|reports| - 1]), {}), reports[|reports| - 1]).slots
  }

  // ----- the declarative reading

  /** The sightings of one key, in order. */
  ghost function Trail<S, K, E>(r: Rules<S, K, E>, report: seq<S>, k: K): seq<S> {
    if report == [] then []
    else
      var s := report[|report| - 1];
      Trail(r, report[..|report| - 1], k) + if r.key(s) == Some(k) then [s] else []
  }

  ghost function FullTrail<S, K, E>(r: Rules<S, K, E>, reports: seq<seq<S>>, k: K): seq<S> {
    if reports == [] then []
    else FullTrail(r, reports[..|reports| - 1], k) + Trail(r, reports[|reports| - 1], k)
  }

  ghost function ReportsWith<S, K, E>(r: Rules<S, K, E>, reports: seq<seq<S>>, k: K): set<int> {
    set i | 0 <= i < |reports| && Trail(r, reports[i], k) != []
  }

  ghost function Replay<S, K, E>(r: Rules<S, K, E>, trail: seq<S>): E
    requires trail != []
  {
    if |trail| == 1 then r.open(trail[0])
    else r.see(Replay(r, trail[..|trail| - 1]), trail[|trail| - 1])
  }

  ghost function KeysOf<S, K, E>(r: Rules<S, K, E>, report: seq<S>): set<K> {
    if report == [] then {}
    else
      KeysOf(r, report[..|report| - 1])
      + match r.key(report[|report| - 1]) case None => {} case Some(k) => {k}
  }

  lemma {:induction false} TrailMembers<S, K, E>(r: Rules<S, K, E>, report: seq<S>, k: K, s: S)
    ensures s in Trail(r, report, k) <==> s in report && r.key(s) == Some(k)
  {
    if report != [] {
      TrailMembers(r, report[..|report| - 1], k, s);
      assert report == report[..|report| - 1] + [report[|report| - 1]];
    }
  }

  lemma {:induction false} FullTrailMembers<S, K, E>(r: Rules<S, K, E>, reports: seq<seq<S>>, k: K, s: S)
    ensures s in FullTrail(r, reports, k)
      <==> r.key(s) == Some(k) && exists i | 0 <= i < |reports| :: s in reports[i]
  {
    if reports != [] {
      var n := |reports| - 1;
      FullTrailMembers(r, reports[..n], k, s);
      TrailMembers(r, reports[n], k, s);
      if i :| 0 <= i < |reports| && s in reports[i] {
        assert i == n || s in reports[..n][i];
      }
      if i :| 0 <= i < n && s in reports[..n][i] {
        assert s in reports[i];
      }
    }
  }

  lemma {:induction false} KeysAreTrails<S, K, E>(r: Rules<S, K, E>, report: seq<S>, k: K)
    ensures k in KeysOf(r, report) <==> Trail(r, report, k) != []
  {
    if report != [] {
      KeysAreTrails(r, report[..|report| - 1], k);
    }
  }

  /** The slot of `k` after sightings `before` and then `more`, `counted` saying whether it was already
      counted in this report. */
  ghost predicate SlotIs<S, K, E>(r: Rules<S, K, E>, slots: map<K, Slot<E>>, k: K, trail: seq<S>, reports: nat) {
    if trail == [] then k !in slots && reports == 0
    else k in slots && slots[k] == Slot(Replay(r, trail), reports)
  }

  lemma {:induction false} WithinReplays<S, K, E>(r: Rules<S, K, E>, slots: map<K, Slot<E>>, report: seq<S>, k: K,
                                                  trail: seq<S>, reports: nat)
    requires SlotIs(r, slots, k, trail, reports)
    ensures var f, t := Within(r, Fold(slots, {}), report), Trail(r, report, k);
      && (k in f.seen <==> t != [])
      && SlotIs(r, f.slots, k, trail + t, if t == [] then reports else reports + 1)
  {
    if report == [] {
      assert trail + [] == trail;
    } else {
      var init, s := report[..|report| - 1], report[|report| - 1];
      WithinReplays(r, slots, init, k, trail, reports);
      var t := Trail(r, init, k);
      if r.key(s) == Some(k) {
        var longer := trail + (t + [s]);
        assert longer[..|longer| - 1] == trail + t;
      } else {
        assert t + [] == t;
      }
    }
  }

  lemma ReportsWithSnoc<S, K, E>(r: Rules<S, K, E>, reports: seq<seq<S>>, k: K)
    requires reports != []
    ensures var n := |reports| - 1;
      |ReportsWith(r, reports, k)|
      == |ReportsWith(r, reports[..n], k)| + if Trail(r, reports[n], k) == [] then 0 else 1
  {
    hide Trail;
    var n := |reports| - 1;
    assert ReportsWith(r, reports, k)
      == ReportsWith(r, reports[..n], k) + if Trail(r, reports[n], k) == [] then {} else {n};
  }

  /** The fold refines its declarative reading: a key has a slot exactly when it is sighted, the slot's
      entry replays the key's own sightings in order, and its count is the number of reports that
      mention the key. No other key has any influence. */
  lemma {:induction false} OverReplays<S, K, E>(r: Rules<S, K, E>, reports: seq<seq<S>>, k: K)
    ensures SlotIs(r, Over(r, reports), k, FullTrail(r, reports, k), |ReportsWith(r, reports, k)|)
  {
    hide Within, Trail, SlotIs, ReportsWith;
    if reports == [] {
      NothingReplayed(r, k);
    } else {
      var n := |reports| - 1;
      OverReplays(r, reports[..n], k);
      ReportsWithSnoc(r, reports, k);
      WithinReplays(r, Over(r, reports[..n]), reports[n], k, FullTrail(r, reports[..n], k),
                    |ReportsWith(r, reports[..n], k)|);
    }
  }

  lemma NothingReplayed<S, K, E>(r: Rules<S, K, E>, k: K)
    ensures SlotIs(r, map[], k, [], |ReportsWith(r, [], k)|)
  {
    assert ReportsWith(r, [], k) == {};
  }

  /** A key is sighted at least as often as reports mention it, and as often exactly when none mentions it
      twice. */
  lemma {:induction false} SightingsPerReport<S, K, E>(r: Rules<S, K, E>, reports: seq<seq<S>>, k: K)
    ensures |FullTrail(r, reports, k)| >= |ReportsWith(r, reports, k)|
    ensures |FullTrail(r, reports, k)| == |ReportsWith(r, reports, k)|
      <==> forall i | 0 <= i < |reports| :: |Trail(r, reports[i], k)| <= 1
  {
    hide Trail, ReportsWith;
    if reports == [] {
      NoReports(r, k);
    } else {
      var n := |reports| - 1;
      SightingsPerReport(r, reports[..n], k);
      ReportsWithSnoc(r, reports, k);
      assert forall i | 0 <= i < n :: reports[..n][i] == reports[i];
    }
  }

  lemma NoReports<S, K, E>(r: Rules<S, K, E>, k: K)
    ensures ReportsWith(r, [], k) == {}
  {
  }

  // ----- which report each sighting comes from

  ghost function Origins<S, K, E>(r: Rules<S, K, E>, reports: seq<seq<S>>, k: K): seq<nat> {
    if reports == [] then []
    else
      var n := |reports| - 1;
      Origins(r, reports[..n], k) + seq(|Trail(r, reports[n], k)|, _ => n)
  }

  /** The trail runs through the reports in order. */
  lemma {:induction false} OriginsInOrder<S, K, E>(r: Rules<S, K, E>, reports: seq<seq<S>>, k: K)
    ensures var trail, from := FullTrail(r, reports, k), Origins(r, reports, k);
      && |from| == |trail|
      && (forall a | 0 <= a < |from| :: from[a] < |reports| && trail[a] in Trail(r, reports[from[a]], k))
      && (forall a, b | 0 <= a < b < |from| :: from[a] <= from[b])
  {
    hide Trail;
    if reports != [] {
      var n := |reports| - 1;
      OriginsInOrder(r, reports[..n], k);
      assert forall i | 0 <= i < n :: reports[..n][i] == reports[i];
    }
  }

  lemma {:induction false} OriginOf<S, K, E>(r: Rules<S, K, E>, reports: seq<seq<S>>, k: K, i: nat)
    requires i < |reports| && Trail(r, reports[i], k) != []
    ensures exists a :: 0 <= a < |Origins(r, reports, k)| && Origins(r, reports, k)[a] == i
  {
    hide Trail;
    var n := |reports| - 1;
    var before := Origins(r, reports[..n], k);
    if i < n {
      OriginOf(r, reports[..n], k, i);
      var a :| 0 <= a < |before| && before[a] == i;
      assert Origins(r, reports, k)[a] == i;
    } else {
      assert Origins(r, reports, k)[|before|] == n;
    }
  }

  // ----- totals over all slots

  ghost function Pick<K, V>(m: map<K, V>): (k: K)
    requires |m| > 0
    ensures k in m
  {
    var k :| k in m;
    k
  }

  lemma RemovingShrinks<K, V>(m: map<K, V>, k: K)
    requires k in m
    ensures |m - {k}| == |m| - 1
  {
    assert (m - {k}).Keys == m.Keys - {k};
  }

  ghost function TotalReports<K, E>(slots: map<K, Slot<E>>): nat
    decreases |slots|
  {
    if |slots| == 0 then 0
    else
      var k := Pick(slots);
      RemovingShrinks(slots, k);
      slots[k].reports + TotalReports(slots - {k})
  }

  lemma {:induction false} TotalWithout<K, E>(slots: map<K, Slot<E>>, k: K)
    requires k in slots
    decreases |slots|
    ensures TotalReports(slots) == slots[k].reports + TotalReports(slots - {k})
  {
    var p := Pick(slots);
    hide Pick;
    if p != k {
      var a, b := slots - {p}, slots - {k};
      RemovingShrinks(slots, p);
      RemovingShrinks(slots, k);
      TotalWithout(a, k);
      TotalWithout(b, p);
      assert a - {k} == b - {p};
    }
  }

  lemma TotalUpdated<K, E>(slots: map<K, Slot<E>>, k: K, slot: Slot<E>)
    ensures TotalReports(slots[k := slot])
      == TotalReports(slots) + slot.reports - if k in slots then slots[k].reports else 0
  {
    hide TotalReports;
    var slots' := slots[k := slot];
    TotalWithout(slots', k);
    assert slots' - {k} == slots - {k};
    if k in slots {
      TotalWithout(slots, k);
    } else {
      assert slots - {k} == slots;
    }
  }

  ghost function KeyCount<S, K, E>(r: Rules<S, K, E>, reports: seq<seq<S>>): nat {
    if reports == [] then 0
    else KeyCount(r, reports[..|reports| - 1]) + |KeysOf(r, reports[|reports| - 1])|
  }

  lemma AbsorbTotals<S, K, E>(r: Rules<S, K, E>, f: Fold<K, E>, s: S)
    ensures var f' := Absorb(r, f, s);
      TotalReports(f'.slots) == TotalReports(f.slots) + |f'.seen| - |f.seen|
  {
    hide TotalReports;
    if r.key(s).Some? {
      var k := r.key(s).value;
      var f' := Absorb(r, f, s);
      TotalUpdated(f.slots, k, f'.slots[k]);
      SizeWith(f.seen, k);
    }
  }

  lemma {:induction false} WithinTotals<S, K, E>(r: Rules<S, K, E>, slots: map<K, Slot<E>>, report: seq<S>)
    ensures var f := Within(r, Fold(slots, {}), report);
      f.seen == KeysOf(r, report) && TotalReports(f.slots) == TotalReports(slots) + |f.seen|
  {
    hide TotalReports;
    if report != [] {
      var init := report[..|report| - 1];
      WithinTotals(r, slots, init);
      AbsorbTotals(r, Within(r, Fold(slots, {}), init), report[|report| - 1]);
    }
  }

  /** Summed over all slots, the counts are the numbers of distinct keys per report. */
  lemma {:induction false} TotalsAgree<S, K, E>(r: Rules<S, K, E>, reports: seq<seq<S>>)
    ensures TotalReports(Over(r, reports)) == KeyCount(r, reports)
  {
    if reports != [] {
      TotalsAgree(r, reports[..|reports| - 1]);
      WithinTotals(r, Over(r, reports[..|reports| - 1]), reports[|reports| - 1]);
    }
  }
}
