/** The asset half of the roll-up: a first pass learns which MAC owns each IP, and the second keys
    every node by its MAC, by the MAC known for its IP, or by its IP. */
module Assets {
  import opened Wrappers
  import opened Rollup
  import opened Aggregate

  datatype KeyType = ByMac | ByIp

  /** The values an asset collects besides its addresses, tagged by the set they go to. */
  datatype Trait = Role(string) | Vendor(string) | DeviceType(string) | PurdueLevel(int) | Protocol(string)

  datatype AssetEntry = AssetEntry(
    keyType: KeyType, macs: set<string>, ips: set<string>, traits: set<Trait>, window: Window)

  // ----- pass 1

  function LearnNode(owners: map<string, string>, n: Node): map<string, string> {
    if n.mac != "" && n.ip != "" && n.ip !in owners then owners[n.ip := n.mac] else owners
  }

  function LearnNodes(owners: map<string, string>, ns: seq<Node>): map<string, string> {
    if ns == [] then owners else LearnNode(LearnNodes(owners, ns[..|ns| - 1]), ns[|ns| - 1])
  }

  function NodesOf(src: Source): seq<Node> {
    if src.report.None? then [] else src.report.value.nodes
  }

  function Owners(srcs: seq<Source>): map<string, string> {
    if srcs == [] then map[] else LearnNodes(Owners(srcs[..|srcs| - 1]), NodesOf(srcs[|srcs| - 1]))
  }

  method LearnOwners(srcs: seq<Source>) returns (owners: map<string, string>)
    ensures owners == Owners(srcs)
  {
    owners := map[];
    for i := 0 to |srcs|
      invariant owners == Owners(srcs[..i])
    {
      assert srcs[..i + 1][..i] == srcs[..i];
      if srcs[i].report.None? {
        continue;
      }
      var ns := srcs[i].report.value.nodes;
      ghost var before := owners;
      for j := 0 to |ns|
        invariant owners == LearnNodes(before, ns[..j])
      {
        assert ns[..j + 1][..j] == ns[..j];
        if ns[j].mac != "" && ns[j].ip != "" && ns[j].ip !in owners {
          owners := owners[ns[j].ip := ns[j].mac];
        }
      }
      assert ns[..|ns|] == ns;
    }
    assert srcs[..|srcs|] == srcs;
  }

  // ----- pass 2

  function Resolve(n: Node, owners: map<string, string>): Option<(string, KeyType)> {
    if n.mac != "" then Some((n.mac, ByMac))
    else if n.ip == "" then None
    else if n.ip in owners && owners[n.ip] != "" then Some((owners[n.ip], ByMac))
    else Some((n.ip, ByIp))
  }

  function NodeKey(n: Node, owners: map<string, string>): Option<string> {
    var r := Resolve(n, owners);
    if r.None? then None else Some(r.value.0)
  }

  function NonEmpty(s: string): set<string> { if s == "" then {} else {s} }

  function TraitsOf(n: Node): set<Trait> {
    (if n.role == "" then {} else {Role(n.role)})
    + (if n.vendor == "" then {} else {Vendor(n.vendor)})
    + (if n.deviceType == "" then {} else {DeviceType(n.deviceType)})
    + (if n.purdueLevel.None? then {} else {PurdueLevel(n.purdueLevel.value)})
    + set p | p in n.protocols :: Protocol(p)
  }

  function OpenAsset(s: Sighting<Node>, owners: map<string, string>): AssetEntry {
    var n, r := s.what, Resolve(s.what, owners);
    AssetEntry(if r.Some? then r.value.1 else ByIp, NonEmpty(n.mac), NonEmpty(n.ip), TraitsOf(n),
               OpenWindow(s.filename, s.modified))
  }

  function SeeAsset(e: AssetEntry, s: Sighting<Node>): AssetEntry {
    var n := s.what;
    AssetEntry(e.keyType, e.macs + NonEmpty(n.mac), e.ips + NonEmpty(n.ip), e.traits + TraitsOf(n),
               SeeWindow(e.window, s.filename, s.modified))
  }

  function AssetRules(owners: map<string, string>): Rules<Sighting<Node>, string, AssetEntry> {
    Rules((s: Sighting<Node>) => NodeKey(s.what, owners), (s: Sighting<Node>) => OpenAsset(s, owners), SeeAsset)
  }

  function NodeGroup(src: Source): seq<Sighting<Node>> {
    var ns := NodesOf(src);
    seq(|ns|, j requires 0 <= j < |ns| => Sighting(src.filename, src.modified, ns[j]))
  }

  function NodeGroups(srcs: seq<Source>): (gs: seq<seq<Sighting<Node>>>)
    ensures |gs| == |srcs|
  {
    seq(|srcs|, i requires 0 <= i < |srcs| => NodeGroup(srcs[i]))
  }

  method AddAsset(assets0: map<string, Slot<AssetEntry>>, seen0: set<string>, owners: map<string, string>,
                  s: Sighting<Node>)
    returns (assets: map<string, Slot<AssetEntry>>, seen: set<string>)
    ensures Fold(assets, seen) == Absorb(AssetRules(owners), Fold(assets0, seen0), s)
  {
    hide SeeAsset, OpenAsset, Resolve;
    assets, seen := assets0, seen0;
    var keyed := NodeKey(s.what, owners);
    if keyed.None? {
      return;
    }
    var key := keyed.value;
    var entry := if key in assets then SeeAsset(assets[key].entry, s) else OpenAsset(s, owners);
    var reports := if key in assets then assets[key].reports else 0;
    if key !in seen {
      reports := reports + 1;
    }
    seen := seen + {key};
    assets := assets[key := Slot(entry, reports)];
  }

  /** The node loop over one report. */
  method AddAssets(src: Source, owners: map<string, string>, assets0: map<string, Slot<AssetEntry>>)
    returns (assets: map<string, Slot<AssetEntry>>)
    ensures assets == Within(AssetRules(owners), Fold(assets0, {}), NodeGroup(src)).slots
  {
    hide AssetRules, Absorb;
    assets := assets0;
    if src.report.None? {
      return;
    }
    var ns := src.report.value.nodes;
    ghost var group := NodeGroup(src);
    var seen: set<string> := {};
    for j := 0 to |ns|
      invariant Fold(assets, seen) == Within(AssetRules(owners), Fold(assets0, {}), group[..j])
    {
      assert group[..j + 1][..j] == group[..j];
      assets, seen := AddAsset(assets, seen, owners, Sighting(src.filename, src.modified, ns[j]));
    }
    assert group[..|ns|] == group;
  }

  method AggregateAssets(srcs: seq<Source>) returns (assets: map<string, Slot<AssetEntry>>)
    ensures assets == Over(AssetRules(Owners(srcs)), NodeGroups(srcs))
  {
    hide AssetRules, Within, NodeGroup;
    var owners := LearnOwners(srcs);
    assets := map[];
    ghost var groups := NodeGroups(srcs);
    for i := 0 to |srcs|
      invariant assets == Over(AssetRules(owners), groups[..i])
    {
      assert groups[..i + 1][..i] == groups[..i] && groups[i] == NodeGroup(srcs[i]);
      assets := AddAssets(srcs[i], owners, assets);
    }
    assert groups[..|srcs|] == groups;
  }

  // ----- who owns an IP

  /** Node `n` is in a loadable report. */
  ghost predicate Loaded(srcs: seq<Source>, n: Node) {
    exists i :: 0 <= i < |srcs| && n in NodesOf(srcs[i])
  }

  ghost predicate Paired(srcs: seq<Source>, ip: string) {
    exists n :: Loaded(srcs, n) && n.ip == ip && n.mac != "" && ip != ""
  }

  lemma {:induction false} LearntFrom(owners: map<string, string>, ns: seq<Node>, ip: string)
    ensures var o := LearnNodes(owners, ns);
      && (ip in owners ==> ip in o && o[ip] == owners[ip])
      && (ip in o <==> ip in owners || exists n | n in ns :: n.ip == ip && n.mac != "" && ip != "")
      && (ip in o && ip !in owners ==> exists n | n in ns :: n.ip == ip && n.mac != "" && n.mac == o[ip])
  {
    if ns != [] {
      var init, last := ns[..|ns| - 1], ns[|ns| - 1];
      LearntFrom(owners, init, ip);
      assert ns == init + [last];
      assert forall n :: n in ns <==> n in init || n == last;
    }
  }

  /** The owners map knows exactly the IPs that some loadable report pairs with a MAC, and names the
      MAC of such a pair. */
  lemma {:induction false} OwnersArePairs(srcs: seq<Source>, ip: string)
    ensures ip in Owners(srcs) <==> Paired(srcs, ip)
    ensures ip in Owners(srcs) ==>
      exists n :: Loaded(srcs, n) && n.ip == ip && n.mac != "" && n.mac == Owners(srcs)[ip]
  {
    if srcs != [] {
      var k := |srcs| - 1;
      var init := srcs[..k];
      OwnersArePairs(init, ip);
      LearntFrom(Owners(init), NodesOf(srcs[k]), ip);
      forall n ensures Loaded(srcs, n) <==> Loaded(init, n) || n in NodesOf(srcs[k]) {
        LoadedSnoc(srcs, n);
      }
    }
  }

  lemma LoadedSnoc(srcs: seq<Source>, n: Node)
    requires srcs != []
    ensures Loaded(srcs, n) <==> Loaded(srcs[..|srcs| - 1], n) || n in NodesOf(srcs[|srcs| - 1])
  {
    var k := |srcs| - 1;
    if i :| 0 <= i < |srcs| && n in NodesOf(srcs[i]) {
      assert i == k || srcs[..k][i] == srcs[i];
    }
    if i :| 0 <= i < k && n in NodesOf(srcs[..k][i]) {
      assert srcs[i] == srcs[..k][i];
    }
  }

  ghost predicate PairIn(ns: seq<Node>, j: int, ip: string) {
    0 <= j < |ns| && ns[j].ip == ip && ip != "" && ns[j].mac != ""
  }

  ghost predicate FirstPairIn(ns: seq<Node>, j: int, ip: string) {
    PairIn(ns, j, ip) && forall j' | 0 <= j' < j :: !PairIn(ns, j', ip)
  }

  /** Node `j` of report `i` is the first of all that pairs the IP with a MAC. */
  ghost predicate FirstPair(srcs: seq<Source>, i: int, j: int, ip: string) {
    && 0 <= i < |srcs| && FirstPairIn(NodesOf(srcs[i]), j, ip)
    && forall i', j' | 0 <= i' < i :: !PairIn(NodesOf(srcs[i']), j', ip)
  }

  lemma {:induction false} LearntFirst(owners: map<string, string>, ns: seq<Node>, ip: string)
    ensures var o := LearnNodes(owners, ns);
      && (ip in owners ==> ip in o && o[ip] == owners[ip])
      && (ip in o && ip !in owners ==> exists j :: FirstPairIn(ns, j, ip) && ns[j].mac == o[ip])
      && (ip !in o ==> forall j :: !PairIn(ns, j, ip))
  {
    if ns != [] {
      var n := |ns| - 1;
      var init, o := ns[..n], LearnNodes(owners, ns[..n]);
      LearntFirst(owners, init, ip);
      assert forall j | 0 <= j < n :: init[j] == ns[j];
      forall j | 0 <= j < n ensures PairIn(init, j, ip) <==> PairIn(ns, j, ip) {
      }
      if ip in o && ip !in owners {
        var j :| FirstPairIn(init, j, ip) && init[j].mac == o[ip];
        assert FirstPairIn(ns, j, ip);
      } else if ip !in o && PairIn(ns, n, ip) {
        assert FirstPairIn(ns, n, ip);
      }
    }
  }

  /** Each IP belongs to the first MAC that any loadable report pairs it with. */
  lemma {:induction false} OwnerIsFirst(srcs: seq<Source>, ip: string)
    ensures ip in Owners(srcs) ==>
      exists i, j :: FirstPair(srcs, i, j, ip) && NodesOf(srcs[i])[j].mac == Owners(srcs)[ip]
    ensures ip !in Owners(srcs) ==> forall i, j | 0 <= i < |srcs| :: !PairIn(NodesOf(srcs[i]), j, ip)
  {
    if srcs != [] {
      hide LearnNodes, NodesOf, PairIn, FirstPairIn;
      var k := |srcs| - 1;
      var init := srcs[..k];
      OwnerIsFirst(init, ip);
      LearntFirst(Owners(init), NodesOf(srcs[k]), ip);
      assert forall i | 0 <= i < k :: init[i] == srcs[i];
      if ip in Owners(init) {
        var i, j :| FirstPair(init, i, j, ip) && NodesOf(init[i])[j].mac == Owners(init)[ip];
        assert FirstPair(srcs, i, j, ip);
      } else if ip in Owners(srcs) {
        var j :| FirstPairIn(NodesOf(srcs[k]), j, ip) && NodesOf(srcs[k])[j].mac == Owners(srcs)[ip];
        assert FirstPair(srcs, k, j, ip);
      }
    }
  }

  // ----- what an asset says about its nodes

  /** The node carries the value in the field that the set collects. */
  ghost predicate HasTrait(n: Node, x: Trait) {
    match x
    case Role(role) => role != "" && n.role == role
    case Vendor(vendor) => vendor != "" && n.vendor == vendor
    case DeviceType(deviceType) => deviceType != "" && n.deviceType == deviceType
    case PurdueLevel(level) => n.purdueLevel == Some(level)
    case Protocol(protocol) => protocol in n.protocols
  }

  lemma TraitsAreHeld(n: Node)
    ensures forall x :: x in TraitsOf(n) <==> HasTrait(n, x)
  {
  }

  ghost predicate DescribesAsset(e: AssetEntry, trail: seq<Sighting<Node>>) {
    && WindowOf(e.window, trail)
    && (forall x :: x in e.macs <==> x != "" && exists s :: s in trail && s.what.mac == x)
    && (forall x :: x in e.ips <==> x != "" && exists s :: s in trail && s.what.ip == x)
    && (forall x :: x in e.traits <==> exists s :: s in trail && HasTrait(s.what, x))
  }

  lemma AssetSnoc(e: AssetEntry, trail: seq<Sighting<Node>>, s: Sighting<Node>)
    requires DescribesAsset(e, trail)
    ensures DescribesAsset(SeeAsset(e, s), trail + [s])
  {
    hide SeeWindow, WindowOf, TraitsOf, HasTrait;
    TraitsAreHeld(s.what);
    WindowSnoc(e.window, trail, s);
    assert forall s' :: s' in trail + [s] <==> s' in trail || s' == s;
  }

  lemma AssetOpened(s: Sighting<Node>, owners: map<string, string>)
    ensures DescribesAsset(OpenAsset(s, owners), [s])
  {
    hide Resolve, TraitsOf, HasTrait;
    TraitsAreHeld(s.what);
    assert s in [s];
  }

  lemma {:induction false} AssetReplay(owners: map<string, string>, trail: seq<Sighting<Node>>)
    requires trail != []
    ensures var e := Replay(AssetRules(owners), trail);
      DescribesAsset(e, trail) && e.keyType == OpenAsset(trail[0], owners).keyType
  {
    hide DescribesAsset, OpenAsset, SeeWindow;
    var init, s := trail[..|trail| - 1], trail[|trail| - 1];
    if |trail| == 1 {
      AssetOpened(s, owners);
      assert trail == [s];
    } else {
      AssetReplay(owners, init);
      AssetSnoc(Replay(AssetRules(owners), init), init, s);
      assert init + [s] == trail;
    }
  }

  // ----- the roll-up, for every list of reports

  /** Node `n` of loadable report `i` resolves to `k`. */
  ghost predicate Resolves(srcs: seq<Source>, i: int, n: Node, k: string) {
    0 <= i < |srcs| && n in NodesOf(srcs[i]) && NodeKey(n, Owners(srcs)) == Some(k)
  }

  ghost predicate HasNode(srcs: seq<Source>, i: int, k: string) { exists n :: Resolves(srcs, i, n, k) }

  ghost predicate AssetSighting(srcs: seq<Source>, k: string, s: Sighting<Node>) {
    exists i :: Resolves(srcs, i, s.what, k) && s.filename == srcs[i].filename && s.modified == srcs[i].modified
  }

  ghost function ReportsOfAsset(srcs: seq<Source>, k: string): set<int> {
    set i | 0 <= i < |srcs| && HasNode(srcs, i, k)
  }

  ghost function AssetTrail(srcs: seq<Source>, k: string): seq<Sighting<Node>> {
    FullTrail(AssetRules(Owners(srcs)), NodeGroups(srcs), k)
  }

  ghost predicate AssetSummary(e: AssetEntry, srcs: seq<Source>, k: string) {
    && (forall s | AssetSighting(srcs, k, s) ::
          && s.modified <= e.window.lastModified
          && (s.modified != 0 ==> 0 < e.window.firstModified <= s.modified))
    && (exists s :: AssetSighting(srcs, k, s)
                    && s.filename == e.window.firstReport && s.modified == e.window.firstModified)
    && (exists s :: AssetSighting(srcs, k, s)
                    && s.filename == e.window.lastReport && s.modified == e.window.lastModified)
    && (forall x :: x in e.macs <==> x != "" && exists s :: AssetSighting(srcs, k, s) && s.what.mac == x)
    && (forall x :: x in e.ips <==> x != "" && exists s :: AssetSighting(srcs, k, s) && s.what.ip == x)
    && (forall x :: x in e.traits <==> exists s :: AssetSighting(srcs, k, s) && HasTrait(s.what, x))
  }

  lemma NodeGroupMembers(src: Source, s: Sighting<Node>)
    ensures s in NodeGroup(src) <==> s.what in NodesOf(src) && s.filename == src.filename && s.modified == src.modified
  {
    if s.what in NodesOf(src) && s.filename == src.filename && s.modified == src.modified {
      var ns := NodesOf(src);
      var j :| 0 <= j < |ns| && ns[j] == s.what;
      assert NodeGroup(src)[j] == s;
    }
  }

  lemma NodeSighted(srcs: seq<Source>, s: Sighting<Node>, k: string)
    ensures s in AssetTrail(srcs, k) <==> AssetSighting(srcs, k, s)
  {
    hide FullTrail, NodeGroup, NodeKey, Owners;
    var groups := NodeGroups(srcs);
    FullTrailMembers(AssetRules(Owners(srcs)), groups, k, s);
    if i :| 0 <= i < |groups| && s in groups[i] && NodeKey(s.what, Owners(srcs)) == Some(k) {
      NodeGroupMembers(srcs[i], s);
      assert Resolves(srcs, i, s.what, k);
    }
    if i :| Resolves(srcs, i, s.what, k) && s.filename == srcs[i].filename && s.modified == srcs[i].modified {
      NodeGroupMembers(srcs[i], s);
      assert s in groups[i];
    }
  }

  lemma ReportHasNode(srcs: seq<Source>, i: nat, k: string)
    requires i < |srcs|
    ensures Trail(AssetRules(Owners(srcs)), NodeGroups(srcs)[i], k) != [] <==> HasNode(srcs, i, k)
  {
    hide Trail, NodeGroup, NodeKey, Owners;
    var r, group := AssetRules(Owners(srcs)), NodeGroups(srcs)[i];
    var trail := Trail(r, group, k);
    if trail != [] {
      TrailMembers(r, group, k, trail[0]);
      NodeGroupMembers(srcs[i], trail[0]);
      assert Resolves(srcs, i, trail[0].what, k);
    }
    if n :| Resolves(srcs, i, n, k) {
      var s := Sighting(srcs[i].filename, srcs[i].modified, n);
      NodeGroupMembers(srcs[i], s);
      TrailMembers(r, group, k, s);
    }
  }

  lemma ReportsHaveNodes(srcs: seq<Source>, k: string)
    ensures ReportsWith(AssetRules(Owners(srcs)), NodeGroups(srcs), k) == ReportsOfAsset(srcs, k)
  {
    hide AssetRules, NodeGroups, Trail, HasNode, Owners;
    forall i | 0 <= i < |srcs|
      ensures Trail(AssetRules(Owners(srcs)), NodeGroups(srcs)[i], k) != [] <==> HasNode(srcs, i, k)
    {
      ReportHasNode(srcs, i, k);
    }
  }

  lemma DescribedIsAssetSummary(srcs: seq<Source>, k: string, e: AssetEntry)
    requires DescribesAsset(e, AssetTrail(srcs, k))
    ensures AssetSummary(e, srcs, k)
  {
    hide AssetTrail, AssetSighting;
    forall s ensures s in AssetTrail(srcs, k) <==> AssetSighting(srcs, k, s) {
      NodeSighted(srcs, s, k);
    }
  }

  /** For every list of reports and every key: the key has an asset exactly when some loadable report has
      a node resolving to it, `report_count` is the number of such reports, and the asset's MACs, IPs,
      traits and window are exactly those of these nodes. */
  lemma AssetRollup(srcs: seq<Source>, k: string)
    ensures var m := Over(AssetRules(Owners(srcs)), NodeGroups(srcs));
      && (k in m <==> exists i :: HasNode(srcs, i, k))
      && (k in m ==> m[k].reports == |ReportsOfAsset(srcs, k)| && AssetSummary(m[k].entry, srcs, k))
  {
    hide AssetRules, NodeGroups, Over, FullTrail, Replay, DescribesAsset, AssetSummary, Resolves, Owners,
         ReportsWith, ReportsOfAsset;
    var r, groups := AssetRules(Owners(srcs)), NodeGroups(srcs);
    var trail := AssetTrail(srcs, k);
    OverReplays(r, groups, k);
    ReportsHaveNodes(srcs, k);
    if trail != [] {
      AssetReplay(Owners(srcs), trail);
      DescribedIsAssetSummary(srcs, k, Replay(r, trail));
      NodeSighted(srcs, trail[0], k);
      var i :| Resolves(srcs, i, trail[0].what, k);
      assert HasNode(srcs, i, k);
    }
    if i :| HasNode(srcs, i, k) {
      var n :| Resolves(srcs, i, n, k);
      NodeIsSighted(srcs, i, n, k);
    }
  }

  lemma NodeIsSighted(srcs: seq<Source>, i: int, n: Node, k: string)
    requires Resolves(srcs, i, n, k)
    ensures AssetSighting(srcs, k, Sighting(srcs[i].filename, srcs[i].modified, n))
    ensures AssetTrail(srcs, k) != []
  {
    hide AssetTrail, Owners, NodeKey, NodesOf;
    NodeSighted(srcs, Sighting(srcs[i].filename, srcs[i].modified, n), k);
  }

  lemma {:induction false} AssetBearsFirst(owners: map<string, string>, trail: seq<Sighting<Node>>)
    requires trail != []
    ensures BearsFirst(Replay(AssetRules(owners), trail).window, trail)
  {
    hide WindowOf, BearsFirst, SeeWindow, Resolve, TraitsOf;
    var init, s := trail[..|trail| - 1], trail[|trail| - 1];
    if |trail| == 1 {
      OnlyBearsFirst(s);
      assert trail == [s];
    } else {
      AssetBearsFirst(owners, init);
      AssetReplay(owners, init);
      BearsFirstSnoc(Replay(AssetRules(owners), init).window, init, s);
      assert init + [s] == trail;
    }
  }

  lemma NodesAttributed(srcs: seq<Source>)
    ensures Attributed(NodeGroups(srcs), srcs)
  {
    forall i, s | 0 <= i < |srcs| && s in NodeGroups(srcs)[i]
      ensures s.filename == srcs[i].filename && s.modified == srcs[i].modified
    {
      NodeGroupMembers(srcs[i], s);
    }
  }

  /** Among reports with one stamp the first names an asset's window, as for findings. */
  lemma AssetTies(srcs: seq<Source>, k: string)
    ensures var m, has := Over(AssetRules(Owners(srcs)), NodeGroups(srcs)), (i: int) => HasNode(srcs, i, k);
      k in m ==>
        var w := m[k].entry.window;
        && (exists i :: FirstWith(srcs, has, i, w.firstModified, w.firstReport))
        && (exists i :: FirstWith(srcs, has, i, w.lastModified, w.lastReport))
  {
    hide AssetRules, NodeGroups, Over, FullTrail, Trail, Replay, HasNode, FirstStamped, FirstWith, ReportsWith, Owners,
      Attributed;
    var r, groups := AssetRules(Owners(srcs)), NodeGroups(srcs);
    var trail, has := FullTrail(r, groups, k), (i: int) => HasNode(srcs, i, k);
    OverReplays(r, groups, k);
    NodesAttributed(srcs);
    forall i | 0 <= i < |srcs| ensures has(i) <==> Trail(r, groups[i], k) != [] {
      ReportHasNode(srcs, i, k);
    }
    if trail != [] {
      AssetBearsFirst(Owners(srcs), trail);
      var w := Replay(r, trail).window;
      var a :| FirstStamped(trail, a, w.firstModified, w.firstReport);
      var b :| FirstStamped(trail, b, w.lastModified, w.lastReport);
      FirstStampedReport(r, srcs, groups, k, has, a, w.firstModified, w.firstReport);
      FirstStampedReport(r, srcs, groups, k, has, b, w.lastModified, w.lastReport);
    }
  }

  /** A node's key in its own fields: its MAC; else, for an IP that some loadable report pairs with a MAC, the MAC of
      such a pair; else its IP; and none without an address. The asset is keyed by IP only in the third case. */
  lemma KeyByFields(srcs: seq<Source>, n: Node)
    ensures var r := Resolve(n, Owners(srcs));
      && (r == None <==> n.mac == "" && n.ip == "")
      && (n.mac != "" ==> r == Some((n.mac, ByMac)))
      && (n.mac == "" && n.ip != "" && !Paired(srcs, n.ip) ==> r == Some((n.ip, ByIp)))
      && (n.mac == "" && Paired(srcs, n.ip) ==>
            exists p :: Loaded(srcs, p) && p.ip == n.ip && p.mac != "" && r == Some((p.mac, ByMac)))
      && NodeKey(n, Owners(srcs)) == (if r == None then None else Some(r.value.0))
  {
    hide Owners, Paired, Loaded;
    OwnersArePairs(srcs, n.ip);
    PairedNeedsIp(srcs);
  }

  lemma PairedNeedsIp(srcs: seq<Source>)
    ensures !Paired(srcs, "")
  {
  }

  // ----- no device splits

  /** The string is the MAC of a loaded node. */
  ghost predicate IsMac(srcs: seq<Source>, k: string) { exists n :: Loaded(srcs, n) && n.mac == k && k != "" }

  lemma ResolvesByIp(srcs: seq<Source>, i: int, n: Node, k: string)
    requires Resolves(srcs, i, n, k) && Resolve(n, Owners(srcs)) == Some((k, ByIp))
    ensures n.mac == "" && n.ip == k != "" && !Paired(srcs, k) && Loaded(srcs, n)
  {
    hide Owners, Paired;
    OwnersArePairs(srcs, n.ip);
  }

  lemma ResolvesByMac(srcs: seq<Source>, i: int, n: Node, k: string)
    requires Resolves(srcs, i, n, k) && Resolve(n, Owners(srcs)) == Some((k, ByMac))
    ensures IsMac(srcs, k)
  {
    hide Owners, Paired;
    if n.mac == "" {
      OwnersArePairs(srcs, n.ip);
    } else {
      assert Loaded(srcs, n);
    }
  }

  /** All nodes of an IP key that is no MAC are IP-only sightings of that address. */
  lemma IpKeyNodes(srcs: seq<Source>, j: int, m: Node, k: string)
    requires Resolves(srcs, j, m, k) && !IsMac(srcs, k)
    ensures m.mac == "" && m.ip == k
  {
    hide Owners, Paired, Loaded, IsMac;
    if Resolve(m, Owners(srcs)) == Some((k, ByMac)) {
      ResolvesByMac(srcs, j, m, k);
    } else {
      ResolvesByIp(srcs, j, m, k);
    }
  }

  lemma FirstSightingKeysAsset(srcs: seq<Source>, k: string)
    ensures var m := Over(AssetRules(Owners(srcs)), NodeGroups(srcs));
      k in m ==> exists i, n :: Resolves(srcs, i, n, k) && Resolve(n, Owners(srcs)) == Some((k, m[k].entry.keyType))
  {
    hide AssetRules, NodeGroups, Over, FullTrail, Replay, DescribesAsset, Owners, ReportsWith;
    var r, trail := AssetRules(Owners(srcs)), AssetTrail(srcs, k);
    OverReplays(r, NodeGroups(srcs), k);
    if trail != [] {
      AssetReplay(Owners(srcs), trail);
      NodeSighted(srcs, trail[0], k);
      var i :| Resolves(srcs, i, trail[0].what, k);
    }
  }

  /** No device splits in two. For every list of reports, no loadable report pairs the key of an IP-keyed asset
      with a MAC. The asset holds no MAC and one IP, its own key, exactly when no loaded node's MAC is spelt
      like that IP, as the two notations never are. */
  lemma DeviceNeverSplits(srcs: seq<Source>, k: string)
    ensures var m := Over(AssetRules(Owners(srcs)), NodeGroups(srcs));
      k in m && m[k].entry.keyType == ByIp ==>
        && !Paired(srcs, k)
        && (m[k].entry.macs == {} && m[k].entry.ips == {k} <==> !IsMac(srcs, k))
  {
    hide AssetRules, NodeGroups, Over, Owners, Paired, Loaded, Resolve, IsMac, Resolves;
    var m := Over(AssetRules(Owners(srcs)), NodeGroups(srcs));
    if k in m && m[k].entry.keyType == ByIp {
      AssetRollup(srcs, k);
      FirstSightingKeysAsset(srcs, k);
      var i, n :| Resolves(srcs, i, n, k) && Resolve(n, Owners(srcs)) == Some((k, ByIp));
      ResolvesByIp(srcs, i, n, k);
      if IsMac(srcs, k) {
        MacInAsset(srcs, k, m[k].entry);
      } else {
        forall s | AssetSighting(srcs, k, s) ensures s.what.mac == "" && s.what.ip == k {
          var j :| Resolves(srcs, j, s.what, k);
          IpKeyNodes(srcs, j, s.what, k);
        }
        IpKeyAsset(m[k].entry, srcs, k);
      }
    }
  }

  lemma MacInAsset(srcs: seq<Source>, k: string, e: AssetEntry)
    requires IsMac(srcs, k) && AssetSummary(e, srcs, k)
    ensures k in e.macs
  {
    hide Owners, AssetSighting, NodesOf;
    var n :| Loaded(srcs, n) && n.mac == k;
    var i :| 0 <= i < |srcs| && n in NodesOf(srcs[i]);
    assert Resolves(srcs, i, n, k);
    NodeIsSighted(srcs, i, n, k);
  }

  lemma IpKeyAsset(e: AssetEntry, srcs: seq<Source>, k: string)
    requires AssetSummary(e, srcs, k) && k != ""
    requires forall s | AssetSighting(srcs, k, s) :: s.what.mac == "" && s.what.ip == k
    ensures e.macs == {} && e.ips == {k}
  {
    hide AssetSighting, TraitsOf;
    assert k in e.ips;
  }

  /** Every loaded node with a MAC or an IP lands in the asset of its key, which lists both addresses;
      a bare IP that any loadable report pairs with a MAC lands under such a MAC. */
  lemma EveryNodeLands(srcs: seq<Source>, n: Node)
    requires Loaded(srcs, n) && (n.mac != "" || n.ip != "")
    ensures var m := Over(AssetRules(Owners(srcs)), NodeGroups(srcs));
      var key := NodeKey(n, Owners(srcs));
      && key.Some? && key.value in m
      && (n.mac != "" ==> key.value == n.mac && n.mac in m[key.value].entry.macs)
      && (n.ip != "" ==> n.ip in m[key.value].entry.ips)
      && (n.mac == "" && Paired(srcs, n.ip) ==>
            exists p :: Loaded(srcs, p) && p.ip == n.ip && p.mac != "" && p.mac == key.value)
  {
    hide AssetRules, NodeGroups, Over, Owners, Paired, AssetSighting;
    var i :| 0 <= i < |srcs| && n in NodesOf(srcs[i]);
    var k := NodeKey(n, Owners(srcs)).value;
    assert Resolves(srcs, i, n, k) && HasNode(srcs, i, k);
    AssetRollup(srcs, k);
    NodeIsSighted(srcs, i, n, k);
    OwnersArePairs(srcs, n.ip);
  }
}
