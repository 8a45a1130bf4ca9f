/** Merging the conversation lists of the chunks of one capture into one list. */
module ChunkMerge {
  import opened Collections
  import opened JsonMerge
  import opened Wrappers
  import Rollup

  type Stamp = nat

  datatype ConvKey = ConvKey(srcMac: string, dstMac: string, protocol: string, port: int)

  datatype Beacon = Beacon(score: real, interval: real, jitter: real)

  /** One conversation dictionary. The four key fields are never updated; a stamp is the rank of its
      string, 0 for a missing or empty one; `flags` holds the boolean fields that are true; `rest` is
      every other key. */
  datatype Conv = Conv(
    key: ConvKey, sums: map<string, int>, firstSeen: Stamp, lastSeen: Stamp, texts: map<string, string>,
    lists: map<string, seq<Json>>, nested: map<string, Json>, flags: set<string>, beacon: Beacon,
    entropy: real, rest: map<string, Json>)

  const SUM_FIELDS := ["packet_count", "bytes_total", "modbus_writes"]
  const TEXT_FIELDS := ["src_ip", "dst_ip", "transport", "dhcp_hostname", "dhcp_vendor_class", "nbns_name",
                        "user_agent", "src_port"]
  const LIST_FIELDS := ["modbus_functions", "s7_functions", "dnp3_objects", "opc_sessions", "iec104_typeids",
                        "iec104_causes", "src_ports_seen", "dns_queries", "dns_query_types"]
  const NESTED_FIELDS := ["cip_identity", "pn_identity", "bacnet_identity", "omron_identity", "mms_identity",
                          "goose_identity", "l2_discovery"]
  const BOOL_FIELDS := ["s7_program_access", "opc_no_security"]

  /** Counters are added up, texts filled once, lists joined, identities merged, and flags raised. */
  lemma FieldsByKind(f: string)
    ensures f in SUM_FIELDS <==> f in {"packet_count", "bytes_total", "modbus_writes"}
    ensures f in TEXT_FIELDS
      <==> f in {"src_ip", "src_port", "dst_ip", "transport", "user_agent", "nbns_name", "dhcp_hostname",
                 "dhcp_vendor_class"}
    ensures f in LIST_FIELDS
      <==> f in {"modbus_functions", "s7_functions", "dnp3_objects", "iec104_typeids", "iec104_causes",
                 "opc_sessions", "dns_queries", "dns_query_types", "src_ports_seen"}
    ensures f in NESTED_FIELDS
      <==> f in {"cip_identity", "pn_identity", "bacnet_identity", "omron_identity", "mms_identity",
                 "goose_identity", "l2_discovery"}
    ensures f in BOOL_FIELDS <==> f in {"s7_program_access", "opc_no_security"}
  {
  }

  function Num(m: map<string, int>, f: string): int { if f in m then m[f] else 0 }
  function Text(m: map<string, string>, f: string): string { if f in m then m[f] else "" }
  function Items(m: map<string, seq<Json>>, f: string): seq<Json> { if f in m then m[f] else [] }

  // ----- one conversation into an existing entry

  function AddSums(e: map<string, int>, c: map<string, int>, fields: seq<string>): map<string, int> {
    if fields == [] then e
    else
      var r, f := AddSums(e, c, fields[..|fields| - 1]), fields[|fields| - 1];
      r[f := Num(r, f) + Num(c, f)]
  }

  function FillTexts(e: map<string, string>, c: map<string, string>, fields: seq<string>): map<string, string> {
    if fields == [] then e
    else
      var r, f := FillTexts(e, c, fields[..|fields| - 1]), fields[|fields| - 1];
      if Text(r, f) == "" && Text(c, f) != "" then r[f := c[f]] else r
  }

  function JoinLists(e: map<string, seq<Json>>, c: map<string, seq<Json>>, fields: seq<string>): map<string, seq<Json>>
  {
    if fields == [] then e
    else
      var r, f := JoinLists(e, c, fields[..|fields| - 1]), fields[|fields| - 1];
      r[f := AppendNew(Items(r, f), Items(c, f))]
  }

  function MergeAll(e: map<string, Json>, c: map<string, Json>, fields: seq<string>): map<string, Json> {
    if fields == [] then e
    else
      var r, f := MergeAll(e, c, fields[..|fields| - 1]), fields[|fields| - 1];
      r[f := Merge(Lookup(r, f), Lookup(c, f))]
  }

  function RaiseFlags(e: set<string>, c: set<string>, fields: seq<string>): set<string> {
    e + set f | f in fields && f in c
  }

  function Earlier(e: Stamp, c: Stamp): Stamp { if c != 0 && (e == 0 || c < e) then c else e }
  function Later(e: Stamp, c: Stamp): Stamp { if c != 0 && (e == 0 || c > e) then c else e }

  function Hotter(e: Beacon, c: Beacon): Beacon { if c.score > e.score then c else e }
  function Larger(e: real, c: real): real { if c > e then c else e }

  function MergeConv(e: Conv, c: Conv): Conv {
    Conv(e.key,
         AddSums(e.sums, c.sums, SUM_FIELDS),
         Earlier(e.firstSeen, c.firstSeen),
         Later(e.lastSeen, c.lastSeen),
         FillTexts(e.texts, c.texts, TEXT_FIELDS),
         JoinLists(e.lists, c.lists, LIST_FIELDS),
         MergeAll(e.nested, c.nested, NESTED_FIELDS),
         RaiseFlags(e.flags, c.flags, BOOL_FIELDS),
         Hotter(e.beacon, c.beacon),
         Larger(e.entropy, c.entropy),
         e.rest)
  }

  method AddSumFields(e: map<string, int>, c: map<string, int>, fields: seq<string>) returns (r: map<string, int>)
    ensures r == AddSums(e, c, fields)
  {
    r := e;
    for i := 0 to |fields|
      invariant r == AddSums(e, c, fields[..i])
    {
      assert fields[..i + 1][..i] == fields[..i];
      r := r[fields[i] := Num(r, fields[i]) + Num(c, fields[i])];
    }
    assert fields[..|fields|] == fields;
  }

  method FillTextFields(e: map<string, string>, c: map<string, string>, fields: seq<string>)
    returns (r: map<string, string>)
    ensures r == FillTexts(e, c, fields)
  {
    r := e;
    for i := 0 to |fields|
      invariant r == FillTexts(e, c, fields[..i])
    {
      assert fields[..i + 1][..i] == fields[..i];
      if Text(r, fields[i]) == "" && Text(c, fields[i]) != "" {
        r := r[fields[i] := c[fields[i]]];
      }
    }
    assert fields[..|fields|] == fields;
  }

  method JoinListFields(e: map<string, seq<Json>>, c: map<string, seq<Json>>, fields: seq<string>)
    returns (r: map<string, seq<Json>>)
    ensures r == JoinLists(e, c, fields)
  {
    hide AppendNew;
    r := e;
    for i := 0 to |fields|
      invariant r == JoinLists(e, c, fields[..i])
    {
      assert fields[..i + 1][..i] == fields[..i];
      var current := CombineLists(Items(r, fields[i]), Items(c, fields[i]));
      r := r[fields[i] := current];
    }
    assert fields[..|fields|] == fields;
  }

  method MergeNestedFields(e: map<string, Json>, c: map<string, Json>, fields: seq<string>)
    returns (r: map<string, Json>)
    ensures r == MergeAll(e, c, fields)
  {
    hide Merge;
    r := e;
    for i := 0 to |fields|
      invariant r == MergeAll(e, c, fields[..i])
    {
      assert fields[..i + 1][..i] == fields[..i];
      var merged := MergeNested(Lookup(r, fields[i]), Lookup(c, fields[i]));
      r := r[fields[i] := merged];
    }
    assert fields[..|fields|] == fields;
  }

  method RaiseFlagFields(e: set<string>, c: set<string>, fields: seq<string>) returns (r: set<string>)
    ensures r == RaiseFlags(e, c, fields)
  {
    r := e;
    for i := 0 to |fields|
      invariant r == RaiseFlags(e, c, fields[..i])
    {
      assert fields[..i + 1] == fields[..i] + [fields[i]];
      if fields[i] in c {
        r := r + {fields[i]};
      }
    }
    assert fields[..|fields|] == fields;
  }

  method WidenWindow(existing: Conv, conv: Conv) returns (first: Stamp, last: Stamp)
    ensures first == Earlier(existing.firstSeen, conv.firstSeen) && last == Later(existing.lastSeen, conv.lastSeen)
  {
    first, last := existing.firstSeen, existing.lastSeen;
    if conv.firstSeen != 0 && (first == 0 || conv.firstSeen < first) {
      first := conv.firstSeen;
    }
    if conv.lastSeen != 0 && (last == 0 || conv.lastSeen > last) {
      last := conv.lastSeen;
    }
  }

  method RaiseScores(existing: Conv, conv: Conv) returns (beacon: Beacon, entropy: real)
    ensures beacon == Hotter(existing.beacon, conv.beacon) && entropy == Larger(existing.entropy, conv.entropy)
  {
    beacon, entropy := existing.beacon, existing.entropy;
    if conv.beacon.score > beacon.score {
      beacon := conv.beacon;
    }
    if conv.entropy > entropy {
      entropy := conv.entropy;
    }
  }

  /** The body of the loop for a key that is already there. */
  method AbsorbInto(existing: Conv, conv: Conv) returns (r: Conv)
    ensures r == MergeConv(existing, conv)
  {
    hide AddSums, FillTexts, JoinLists, MergeAll, RaiseFlags, Earlier, Later, Hotter, Larger;
    var sums := AddSumFields(existing.sums, conv.sums, SUM_FIELDS);
    var first, last := WidenWindow(existing, conv);
    var texts := FillTextFields(existing.texts, conv.texts, TEXT_FIELDS);
    var lists := JoinListFields(existing.lists, conv.lists, LIST_FIELDS);
    var nested := MergeNestedFields(existing.nested, conv.nested, NESTED_FIELDS);
    var flags := RaiseFlagFields(existing.flags, conv.flags, BOOL_FIELDS);
    var beacon, entropy := RaiseScores(existing, conv);
    r := Conv(existing.key, sums, first, last, texts, lists, nested, flags, beacon, entropy, existing.rest);
  }

  // ----- the fold

  /** A dictionary that remembers its insertion order. */
  datatype ConvMap = ConvMap(order: seq<ConvKey>, entries: map<ConvKey, Conv>)

  const EMPTY := ConvMap([], map[])

  function Absorb(m: ConvMap, c: Conv): ConvMap {
    if c.key !in m.entries then ConvMap(m.order + [c.key], m.entries[c.key := c])
    else ConvMap(m.order, m.entries[c.key := MergeConv(m.entries[c.key], c)])
  }

  function AbsorbAll(m: ConvMap, cs: seq<Conv>): ConvMap {
    if cs == [] then m else Absorb(AbsorbAll(m, cs[..|cs| - 1]), cs[|cs| - 1])
  }

  function AbsorbReports(reports: seq<seq<Conv>>): ConvMap {
    if reports == [] then EMPTY else AbsorbAll(AbsorbReports(reports[..|reports| - 1]), reports[|reports| - 1])
  }

  ghost predicate Ordered(m: ConvMap) {
    && Distinct(m.order)
    && (forall k :: k in m.order <==> k in m.entries)
    && (forall k | k in m.entries :: m.entries[k].key == k)
  }

  function Values(m: ConvMap): (cs: seq<Conv>)
    requires Ordered(m)
    ensures |cs| == |m.order| && forall i | 0 <= i < |cs| :: cs[i] == m.entries[m.order[i]] && cs[i].key == m.order[i]
  {
    seq(|m.order|, i requires 0 <= i < |m.order| => m.entries[m.order[i]])
  }

  lemma AbsorbKeepsOrder(m: ConvMap, c: Conv)
    requires Ordered(m)
    ensures Ordered(Absorb(m, c))
  {
    hide AddSums, FillTexts, JoinLists, MergeAll, RaiseFlags;
  }

  lemma {:induction false} AbsorbAllKeepsOrder(m: ConvMap, cs: seq<Conv>)
    requires Ordered(m)
    ensures Ordered(AbsorbAll(m, cs))
  {
    hide Absorb, Ordered;
    if cs != [] {
      AbsorbAllKeepsOrder(m, cs[..|cs| - 1]);
      AbsorbKeepsOrder(AbsorbAll(m, cs[..|cs| - 1]), cs[|cs| - 1]);
    }
  }

  lemma {:induction false} ReportsKeepOrder(reports: seq<seq<Conv>>)
    ensures Ordered(AbsorbReports(reports))
  {
    if reports != [] {
      ReportsKeepOrder(reports[..|reports| - 1]);
      AbsorbAllKeepsOrder(AbsorbReports(reports[..|reports| - 1]), reports[|reports| - 1]);
    }
  }

  function MergeReports(reports: seq<seq<Conv>>): seq<Conv> {
    ReportsKeepOrder(reports);
    Values(AbsorbReports(reports))
  }

  method MergeChunkConversations(reports: seq<seq<Conv>>) returns (merged: seq<Conv>)
    ensures merged == MergeReports(reports)
  {
    hide MergeConv, Ordered;
    var order: seq<ConvKey>, entries: map<ConvKey, Conv> := [], map[];
    for i := 0 to |reports|
      invariant ConvMap(order, entries) == AbsorbReports(reports[..i])
    {
      assert reports[..i + 1][..i] == reports[..i];
      ghost var before := ConvMap(order, entries);
      var cs := reports[i];
      for j := 0 to |cs|
        invariant ConvMap(order, entries) == AbsorbAll(before, cs[..j])
      {
        assert cs[..j + 1][..j] == cs[..j];
        var key := cs[j].key;
        if key !in entries {
          order, entries := order + [key], entries[key := cs[j]];
          continue;
        }
        var existing := AbsorbInto(entries[key], cs[j]);
        entries := entries[key := existing];
      }
      assert cs[..|cs|] == cs;
    }
    assert reports[..|reports|] == reports;
    ReportsKeepOrder(reports);
    merged := Values(ConvMap(order, entries));
  }

  // ----- one conversation per key

  /** The merged list has one conversation for each key that occurs in a report, and no other. */
  lemma OneConversationPerKey(reports: seq<seq<Conv>>, k: ConvKey)
    ensures var out := MergeReports(reports);
      && (forall i, j | 0 <= i < j < |out| :: out[i].key != out[j].key)
      && ((exists i :: 0 <= i < |out| && out[i].key == k) <==> exists c :: c in Concat(reports) && c.key == k)
  {
    hide Absorb, AbsorbReports, FoldTrail, Rollup.Trail;
    ReportsKeepOrder(reports);
    var m := AbsorbReports(reports);
    FlatFold(reports);
    TrailOfKey(Concat(reports), k);
    var trail := ConvTrail(Concat(reports), k);
    if trail != [] {
      Rollup.TrailMembers(ConvRules(), Concat(reports), k, trail[0]);
    }
    if c :| c in Concat(reports) && c.key == k {
      Rollup.TrailMembers(ConvRules(), Concat(reports), k, c);
    }
    if k in m.order {
      var i :| 0 <= i < |m.order| && m.order[i] == k;
      assert MergeReports(reports)[i].key == k;
    }
  }

  function Concat(reports: seq<seq<Conv>>): seq<Conv> {
    if reports == [] then [] else Concat(reports[..|reports| - 1]) + reports[|reports| - 1]
  }

  lemma {:induction false} AbsorbAllSplits(m: ConvMap, a: seq<Conv>, b: seq<Conv>)
    ensures AbsorbAll(m, a + b) == AbsorbAll(AbsorbAll(m, a), b)
  {
    hide Absorb;
    if b == [] {
      assert a + b == a;
    } else {
      var init := b[..|b| - 1];
      AbsorbAllSplits(m, a, init);
      assert (a + b)[..|a + b| - 1] == a + init;
    }
  }

  /** Only the concatenation of the chunk reports matters, not where the capture was cut. */
  lemma {:induction false} FlatFold(reports: seq<seq<Conv>>)
    ensures AbsorbReports(reports) == AbsorbAll(EMPTY, Concat(reports))
  {
    if reports != [] {
      var init := reports[..|reports| - 1];
      FlatFold(init);
      AbsorbAllSplits(EMPTY, Concat(init), reports[|reports| - 1]);
    }
  }

  // ----- resuming

  ghost predicate FirstOf(part: ConvMap, m: ConvMap, n: int) {
    && 0 <= n <= |m.order|
    && part.order == m.order[..n]
    && part.entries.Keys == (set k | k in m.order[..n])
    && forall k | k in part.entries :: k in m.entries && part.entries[k] == m.entries[k]
  }

  lemma ReloadOne(part: ConvMap, m: ConvMap, n: nat)
    requires Ordered(m) && n < |m.order| && FirstOf(part, m, n)
    ensures FirstOf(Absorb(part, m.entries[m.order[n]]), m, n + 1)
  {
    hide MergeConv;
    var k := m.order[n];
    assert m.order[..n + 1] == m.order[..n] + [k];
    assert k !in m.order[..n];
    assert Absorb(part, m.entries[k]).entries == part.entries[k := m.entries[k]];
  }

  lemma {:induction false} ReloadPrefix(m: ConvMap, n: nat)
    requires Ordered(m) && n <= |m.order|
    ensures FirstOf(AbsorbAll(EMPTY, Values(m)[..n]), m, n)
  {
    hide Absorb;
    var cs := Values(m);
    if n > 0 {
      hide FirstOf, Ordered;
      ReloadPrefix(m, n - 1);
      assert cs[..n][..n - 1] == cs[..n - 1];
      ReloadOne(AbsorbAll(EMPTY, cs[..n - 1]), m, n - 1);
    }
  }

  /** Feeding a merged list back gives the very state that produced it. */
  lemma Reload(m: ConvMap)
    requires Ordered(m)
    ensures AbsorbAll(EMPTY, Values(m)) == m
  {
    hide AbsorbAll;
    var n := |m.order|;
    ReloadPrefix(m, n);
    var r := AbsorbAll(EMPTY, Values(m)[..n]);
    assert Values(m)[..n] == Values(m) && m.order[..n] == m.order;
    assert r.entries == m.entries;
  }

  lemma {:induction false} ConcatSplits(a: seq<seq<Conv>>, b: seq<seq<Conv>>)
    ensures Concat(a + b) == Concat(a) + Concat(b)
  {
    if b == [] {
      assert a + b == a;
    } else {
      var init := b[..|b| - 1];
      ConcatSplits(a, init);
      assert (a + b)[..|a + b| - 1] == a + init;
    }
  }

  /** Merging a prefix of the chunks and feeding the result back as one report, followed by the rest,
      gives the list that merging all chunks at once gives. */
  lemma MergeResumes(done: seq<seq<Conv>>, rest: seq<seq<Conv>>)
    ensures MergeReports([MergeReports(done)] + rest) == MergeReports(done + rest)
  {
    hide AbsorbAll, AbsorbReports, Concat, Values;
    var merged := MergeReports(done);
    ReportsKeepOrder(done);
    Reload(AbsorbReports(done));
    FlatFold(done);
    FlatFold([merged] + rest);
    FlatFold(done + rest);
    ConcatSplits([merged], rest);
    ConcatSplits(done, rest);
    ConcatOne(merged);
    AbsorbAllSplits(EMPTY, merged, Concat(rest));
    AbsorbAllSplits(EMPTY, Concat(done), Concat(rest));
  }

  lemma ConcatOne(cs: seq<Conv>)
    ensures Concat([cs]) == cs
  {
    assert [cs][..0] == [] && [cs][0] == cs;
  }

  // ----- what one key's conversation holds

  function ConvRules(): Rollup.Rules<Conv, ConvKey, Conv> {
    Rollup.Rules((c: Conv) => Some(c.key), (c: Conv) => c, MergeConv)
  }

  /** The conversations of one key, in order. */
  ghost function ConvTrail(cs: seq<Conv>, k: ConvKey): seq<Conv> { Rollup.Trail(ConvRules(), cs, k) }

  /** The first conversation, with the later ones merged in. */
  ghost function FoldTrail(trail: seq<Conv>): Conv
    requires trail != []
  {
    Rollup.Replay(ConvRules(), trail)
  }

  ghost predicate EntryIs(m: ConvMap, k: ConvKey, trail: seq<Conv>) {
    if trail == [] then k !in m.entries else k in m.entries && m.entries[k] == FoldTrail(trail)
  }

  lemma EntryGrows(m: ConvMap, k: ConvKey, trail: seq<Conv>, c: Conv)
    requires EntryIs(m, k, trail)
    ensures EntryIs(Absorb(m, c), k, trail + if c.key == k then [c] else [])
  {
    hide MergeConv;
    if c.key == k {
      assert (trail + [c])[..|trail|] == trail;
    } else {
      assert trail + [] == trail;
    }
  }

  /** A key's conversation is the fold of that key's own conversations, in order; no other key has any
      influence on it. */
  lemma {:induction false} TrailOfKey(cs: seq<Conv>, k: ConvKey)
    ensures EntryIs(AbsorbAll(EMPTY, cs), k, ConvTrail(cs, k))
  {
    hide Absorb, FoldTrail;
    if cs != [] {
      hide EntryIs;
      var init, c := cs[..|cs| - 1], cs[|cs| - 1];
      TrailOfKey(init, k);
      EntryGrows(AbsorbAll(EMPTY, init), k, ConvTrail(init, k), c);
    }
  }

  /** Each merged conversation is the fold of the conversations of its key over all chunks. */
  lemma MergedConversation(reports: seq<seq<Conv>>, i: nat)
    requires i < |MergeReports(reports)|
    ensures var c := MergeReports(reports)[i];
      var trail := ConvTrail(Concat(reports), c.key);
      trail != [] && c == FoldTrail(trail)
  {
    hide AbsorbReports, AbsorbAll, Concat, ConvTrail, FoldTrail;
    ReportsKeepOrder(reports);
    FlatFold(reports);
    TrailOfKey(Concat(reports), MergeReports(reports)[i].key);
  }

  lemma {:induction false} SumsAdd(e: map<string, int>, c: map<string, int>, fields: seq<string>, f: string)
    requires Distinct(fields)
    ensures Num(AddSums(e, c, fields), f) == Num(e, f) + if f in fields then Num(c, f) else 0
  {
    if fields != [] {
      var n := |fields| - 1;
      SumsAdd(e, c, fields[..n], f);
      assert fields == fields[..n] + [fields[n]];
    }
  }

  lemma SumFieldsDiffer()
    ensures Distinct(SUM_FIELDS)
  {
    assert SUM_FIELDS[0][0] == 'p' && SUM_FIELDS[1][0] == 'b' && SUM_FIELDS[2][0] == 'm';
  }

  /** What a conversation records under a counter, a text and a list field. */
  ghost function Counted(c: Conv, f: string): int { if f !in c.sums then 0 else c.sums[f] }
  ghost predicate Says(c: Conv, f: string, text: string) { f in c.texts && c.texts[f] == text && text != "" }
  ghost predicate Lists(c: Conv, f: string, x: Json) { f in c.lists && x in c.lists[f] }

  lemma FieldReads(c: Conv, f: string)
    ensures Num(c.sums, f) == Counted(c, f)
    ensures Text(c.texts, f) == "" <==> forall text :: !Says(c, f, text)
    ensures Text(c.texts, f) != "" ==> Says(c, f, Text(c.texts, f))
    ensures forall x :: x in Items(c.lists, f) <==> Lists(c, f, x)
  {
    assert Text(c.texts, f) != "" ==> Says(c, f, Text(c.texts, f));
  }

  ghost function Total(trail: seq<Conv>, f: string): int {
    if trail == [] then 0 else Total(trail[..|trail| - 1], f) + Counted(trail[|trail| - 1], f)
  }

  /** Packets, bytes and writes are conserved. */
  lemma {:induction false} SumsConserved(trail: seq<Conv>, f: string)
    requires trail != [] && f in SUM_FIELDS
    ensures Counted(FoldTrail(trail), f) == Total(trail, f)
  {
    var init, c := trail[..|trail| - 1], trail[|trail| - 1];
    if |trail| == 1 {
      assert Total(init, f) == 0;
    } else {
      hide AddSums, FillTexts, JoinLists, MergeAll, RaiseFlags, Earlier, Later, Hotter, Larger, SUM_FIELDS, Counted,
        Num;
      SumsConserved(init, f);
      FieldReads(FoldTrail(init), f);
      FieldReads(c, f);
      FieldReads(FoldTrail(trail), f);
      SumFieldsDiffer();
      SumsAdd(FoldTrail(init).sums, c.sums, SUM_FIELDS, f);
    }
  }

  /** First seen is the least non-empty stamp of the key's conversations, last seen the greatest. */
  lemma {:induction false} WindowSpans(trail: seq<Conv>)
    requires trail != []
    ensures var r := FoldTrail(trail);
      && (forall c | c in trail && c.firstSeen != 0 :: 0 < r.firstSeen <= c.firstSeen)
      && (exists c :: c in trail && c.firstSeen == r.firstSeen)
      && (forall c | c in trail :: c.lastSeen <= r.lastSeen)
      && (exists c :: c in trail && c.lastSeen == r.lastSeen)
  {
    hide AddSums, FillTexts, JoinLists, MergeAll, RaiseFlags, Hotter, Larger;
    var init, c := trail[..|trail| - 1], trail[|trail| - 1];
    assert c in trail;
    if |trail| == 1 {
      assert trail == [c];
    } else {
      WindowSpans(init);
      var a :| a in init && a.firstSeen == FoldTrail(init).firstSeen;
      var b :| b in init && b.lastSeen == FoldTrail(init).lastSeen;
      assert trail == init + [c];
      assert a in trail && b in trail;
    }
  }

  lemma {:induction false} ListsJoin(e: map<string, seq<Json>>, c: map<string, seq<Json>>, fields: seq<string>,
                                     f: string, x: Json)
    ensures x in Items(JoinLists(e, c, fields), f) <==> x in Items(e, f) || (f in fields && x in Items(c, f))
    ensures Items(e, f) <= Items(JoinLists(e, c, fields), f)
  {
    hide AppendNew;
    if fields != [] {
      var n := |fields| - 1;
      var r, g := JoinLists(e, c, fields[..n]), fields[n];
      ListsJoin(e, c, fields[..n], f, x);
      assert fields == fields[..n] + [g];
      AppendNewHolds(Items(r, g), Items(c, g), x);
    }
  }

  /** Each list field holds exactly the items of all of the key's conversations, the first one's in front. */
  lemma {:induction false} ListsCollect(trail: seq<Conv>, f: string, x: Json)
    requires trail != [] && f in LIST_FIELDS
    ensures Lists(FoldTrail(trail), f, x) <==> exists c :: c in trail && Lists(c, f, x)
    ensures Items(trail[0].lists, f) <= Items(FoldTrail(trail).lists, f)
  {
    hide AddSums, FillTexts, JoinLists, MergeAll, RaiseFlags, Earlier, Later, Hotter, Larger, LIST_FIELDS, Items, Lists;
    var init, c := trail[..|trail| - 1], trail[|trail| - 1];
    assert c in trail;
    FieldReads(FoldTrail(trail), f);
    FieldReads(c, f);
    if |trail| == 1 {
      assert trail == [c];
    } else {
      ListsCollect(init, f, x);
      FieldReads(FoldTrail(init), f);
      ListsJoin(FoldTrail(init).lists, c.lists, LIST_FIELDS, f, x);
      assert trail == init + [c];
      assert forall c' :: c' in trail <==> c' in init || c' == c;
    }
  }

  lemma {:induction false} TextsFill(e: map<string, string>, c: map<string, string>, fields: seq<string>, f: string)
    ensures Text(FillTexts(e, c, fields), f) == if f in fields && Text(e, f) == "" then Text(c, f) else Text(e, f)
  {
    if fields != [] {
      var n := |fields| - 1;
      TextsFill(e, c, fields[..n], f);
      assert fields == fields[..n] + [fields[n]];
    }
  }

  /** A text field holds the first non-empty value among the key's conversations. */
  lemma {:induction false} FirstTextStays(trail: seq<Conv>, f: string)
    requires trail != [] && f in TEXT_FIELDS
    ensures (forall t :: !Says(FoldTrail(trail), f, t)) ==> forall c, t | c in trail :: !Says(c, f, t)
    ensures forall t | Says(FoldTrail(trail), f, t) :: exists i :: FirstToSay(trail, f, i, t)
  {
    hide Says, Text;
    TextStays(trail, f);
    FieldReads(FoldTrail(trail), f);
    forall c, t | c in trail && Says(c, f, t) ensures Text(c.texts, f) == t != "" {
      SaysText(c, f, t);
    }
    forall t | Says(FoldTrail(trail), f, t) ensures exists i :: FirstToSay(trail, f, i, t) {
      SaysText(FoldTrail(trail), f, t);
      var i :| FirstWithText(trail, f, i) && t == Text(trail[i].texts, f);
      FieldReads(trail[i], f);
      forall j, t' | 0 <= j < i ensures !Says(trail[j], f, t') {
        FieldReads(trail[j], f);
      }
      assert FirstToSay(trail, f, i, t);
    }
  }

  lemma SaysText(c: Conv, f: string, t: string)
    requires Says(c, f, t)
    ensures Text(c.texts, f) == t != ""
  {
  }

  /** Conversation `i` is the first to say anything in the field, and says `t`. */
  ghost predicate FirstToSay(trail: seq<Conv>, f: string, i: int, t: string) {
    0 <= i < |trail| && Says(trail[i], f, t) && forall j, t' | 0 <= j < i :: !Says(trail[j], f, t')
  }

  lemma {:induction false} TextStays(trail: seq<Conv>, f: string)
    requires trail != [] && f in TEXT_FIELDS
    ensures var t := Text(FoldTrail(trail).texts, f);
      if t == "" then forall c | c in trail :: Text(c.texts, f) == ""
      else exists i :: FirstWithText(trail, f, i) && t == Text(trail[i].texts, f)
  {
    hide AddSums, FillTexts, JoinLists, MergeAll, RaiseFlags, Earlier, Later, Hotter, Larger, TEXT_FIELDS, Text;
    var n := |trail| - 1;
    var init, c := trail[..n], trail[n];
    if |trail| == 1 {
      assert trail == [c];
      assert Text(c.texts, f) != "" ==> FirstWithText(trail, f, 0);
    } else {
      TextStays(init, f);
      TextsFill(FoldTrail(init).texts, c.texts, TEXT_FIELDS, f);
      assert trail == init + [c];
      if Text(FoldTrail(init).texts, f) != "" {
        var i :| FirstWithText(init, f, i) && Text(FoldTrail(init).texts, f) == Text(init[i].texts, f);
        assert FirstWithText(trail, f, i);
      } else if Text(c.texts, f) != "" {
        assert forall j | 0 <= j < n :: trail[j] == init[j] && trail[j] in init;
        assert FirstWithText(trail, f, n);
      }
    }
  }

  ghost predicate FirstWithText(trail: seq<Conv>, f: string, i: int) {
    && 0 <= i < |trail| && Text(trail[i].texts, f) != ""
    && forall j | 0 <= j < i :: Text(trail[j].texts, f) == ""
  }

  lemma {:induction false} NestedMerge(e: map<string, Json>, c: map<string, Json>, fields: seq<string>, f: string)
    ensures Lookup(MergeAll(e, c, fields), f) == if f in fields then Merge(Lookup(e, f), Lookup(c, f)) else Lookup(e, f)
  {
    hide Merge;
    if fields != [] {
      var n := |fields| - 1;
      NestedMerge(e, c, fields[..n], f);
      assert fields == fields[..n] + [fields[n]];
      if f == fields[n] {
        MergeAbsorbs(Lookup(e, f), Lookup(c, f));
      }
    }
  }

  /** No identity dictionary, once recorded, ever loses what it says, however many chunks follow. */
  lemma {:induction false} IdentityNeverLost(trail: seq<Conv>, i: nat, f: string)
    requires 0 < i <= |trail| && f in NESTED_FIELDS
    requires Lookup(FoldTrail(trail[..i]).nested, f).JObj?
    ensures Keeps(Lookup(FoldTrail(trail[..i]).nested, f), Lookup(FoldTrail(trail).nested, f))
    ensures Lookup(FoldTrail(trail).nested, f).JObj?
  {
    hide AddSums, FillTexts, JoinLists, MergeAll, RaiseFlags, Merge, Keeps;
    var early := Lookup(FoldTrail(trail[..i]).nested, f);
    if i == |trail| {
      assert trail[..i] == trail;
      KeepsItself(early);
    } else {
      var init, c := trail[..|trail| - 1], trail[|trail| - 1];
      assert init[..i] == trail[..i];
      IdentityNeverLost(init, i, f);
      var before := Lookup(FoldTrail(init).nested, f);
      NestedMerge(FoldTrail(init).nested, c.nested, NESTED_FIELDS, f);
      MergeKeeps(before, Lookup(c.nested, f));
      KeepsTransitive(early, before, Lookup(FoldTrail(trail).nested, f));
    }
  }

  ghost predicate BestBeacon(trail: seq<Conv>, b: Beacon, i: int) {
    && 0 <= i < |trail| && trail[i].beacon == b
    && (forall c | c in trail :: c.beacon.score <= b.score)
    && (forall j | 0 <= j < i :: trail[j].beacon.score < b.score)
  }

  lemma BeaconSnoc(init: seq<Conv>, b: Beacon, c: Conv, b': Beacon)
    requires exists i :: BestBeacon(init, b, i)
    requires b' == Hotter(b, c.beacon)
    ensures exists i :: BestBeacon(init + [c], b', i)
  {
    var n, trail := |init|, init + [c];
    var i :| BestBeacon(init, b, i);
    assert forall c' :: c' in trail <==> c' in init || c' == c;
    if c.beacon.score > b.score {
      assert forall j | 0 <= j < n :: trail[j] == init[j] && trail[j] in init;
      assert BestBeacon(trail, c.beacon, n);
    } else {
      assert BestBeacon(trail, b, i);
    }
  }

  /** The three beacon figures are those of the first conversation with the highest score. */
  lemma {:induction false} BeaconIsTheBest(trail: seq<Conv>)
    requires trail != []
    ensures exists i :: BestBeacon(trail, FoldTrail(trail).beacon, i)
  {
    hide AddSums, FillTexts, JoinLists, MergeAll, RaiseFlags, Earlier, Later;
    var init, c := trail[..|trail| - 1], trail[|trail| - 1];
    if |trail| == 1 {
      assert trail == [c] && FoldTrail(trail) == c;
      assert BestBeacon(trail, FoldTrail(trail).beacon, 0);
    } else {
      hide BestBeacon, Hotter;
      BeaconIsTheBest(init);
      BeaconSnoc(init, FoldTrail(init).beacon, c, FoldTrail(trail).beacon);
      assert trail == init + [c];
    }
  }

  /** The entropy is the highest of all, and a boolean field is true when it is in any conversation. */
  lemma {:induction false} EntropyAndFlags(trail: seq<Conv>, f: string)
    requires trail != [] && f in BOOL_FIELDS
    ensures var r := FoldTrail(trail);
      && (forall c | c in trail :: c.entropy <= r.entropy)
      && (exists c :: c in trail && c.entropy == r.entropy)
      && (f in r.flags <==> exists c :: c in trail && f in c.flags)
  {
    hide AddSums, FillTexts, JoinLists, MergeAll, Earlier, Later, BOOL_FIELDS;
    var init, c := trail[..|trail| - 1], trail[|trail| - 1];
    assert c in trail;
    if |trail| == 1 {
      assert trail == [c];
    } else {
      EntropyAndFlags(init, f);
      assert trail == init + [c];
      assert forall c' :: c' in trail <==> c' in init || c' == c;
      var e :| e in init && e.entropy == FoldTrail(init).entropy;
      assert e in trail;
    }
  }
}
