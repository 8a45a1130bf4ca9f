/** Merging plugin sidecars into a report: extensions by plugin id, and plugin findings after the report's
    own. Strings are modelled after the source's strip and upper normalisation. */
module Enrich {
  import opened Collections
  import opened Wrappers

  const SPECS := ["marlinspike-mitre", "marlinspike-arp", "marlinspike-apt", "marlinspike-cisa"]

  predicate IsPlugin(id: string) { id in SPECS }

  datatype Severity = Critical | High | Medium | Low | Info

  /** A plugin's finding. `addresses` are the values of the five single fields and then of the five list
      fields, in the order they are read, "" for None; `texts` are detail, description and message. */
  datatype Raw = NotADict | Raw(
    category: string, addresses: seq<string>, severity: Option<Severity>, texts: seq<string>, edges: seq<string>,
    cvss: real, remediation: string, techniques: seq<string>, ids: seq<string>)

  datatype Artifact = NoArtifact | Artifact(pluginId: string, findings: seq<Raw>)

  /** A report finding: `rest` is any key that the adapter does not write. */
  datatype Finding = Bare(text: string) | Finding(
    category: string, severity: Severity, description: string, affected: seq<string>, edges: seq<string>,
    cvss: real, remediation: string, attackIds: seq<string>, source: string, rest: string)

  /** A dictionary that remembers its insertion order. */
  datatype Extensions = Extensions(order: seq<string>, artifacts: map<string, Artifact>)

  datatype Report = Report(extensions: Extensions, findings: seq<Finding>)

  // ----- the adapter

  function AddressesOf(values: seq<string>): seq<string> {
    if values == [] then []
    else
      var init, v := AddressesOf(values[..|values| - 1]), values[|values| - 1];
      if v != "" && v !in init then init + [v] else init
  }

  function NonEmpty(values: seq<string>): seq<string> {
    if values == [] then []
    else NonEmpty(values[..|values| - 1]) + if values[|values| - 1] == "" then [] else [values[|values| - 1]]
  }

  function FirstText(texts: seq<string>, fallback: string): string {
    if texts == [] then fallback else if texts[0] != "" then texts[0] else FirstText(texts[1..], fallback)
  }

  function Adapt(id: string, raw: Raw): Option<Finding> {
    if raw.NotADict? || raw.category == "" then None
    else
      Some(Finding(raw.category, raw.severity.GetOr(Medium), FirstText(raw.texts, raw.category),
                   AddressesOf(raw.addresses), raw.edges, raw.cvss, raw.remediation,
                   NonEmpty(if raw.techniques != [] then raw.techniques else raw.ids), id, ""))
  }

  method PluginFindingToRiskFinding(id: string, raw: Raw) returns (r: Option<Finding>)
    ensures r == Adapt(id, raw)
  {
    if raw.NotADict? || raw.category == "" {
      return None;
    }
    var affected: seq<string>, seen: set<string> := [], {};
    for i := 0 to |raw.addresses|
      invariant affected == AddressesOf(raw.addresses[..i]) && forall v :: v in seen <==> v in affected
    {
      assert raw.addresses[..i + 1][..i] == raw.addresses[..i];
      var v := raw.addresses[i];
      if v != "" && v !in seen {
        seen, affected := seen + {v}, affected + [v];
      }
    }
    assert raw.addresses[..|raw.addresses|] == raw.addresses;
    r := Some(Finding(raw.category, raw.severity.GetOr(Medium), FirstText(raw.texts, raw.category), affected,
                      raw.edges, raw.cvss, raw.remediation,
                      NonEmpty(if raw.techniques != [] then raw.techniques else raw.ids), id, ""));
  }

  // ----- collecting

  function AdaptAll(id: string, raws: seq<Raw>): seq<Finding> {
    if raws == [] then []
    else
      var r := Adapt(id, raws[|raws| - 1]);
      AdaptAll(id, raws[..|raws| - 1]) + if r.Some? then [r.value] else []
  }

  function Produced(e: Extensions, id: string): seq<Finding> {
    if id in e.artifacts && e.artifacts[id].Artifact? then AdaptAll(id, e.artifacts[id].findings) else []
  }

  function CollectFrom(e: Extensions, ids: seq<string>): seq<Finding> {
    if ids == [] then [] else CollectFrom(e, ids[..|ids| - 1]) + Produced(e, ids[|ids| - 1])
  }

  function Collect(e: Extensions): seq<Finding> { CollectFrom(e, e.order) }

  method AdaptArtifact(id: string, raws: seq<Raw>) returns (out: seq<Finding>)
    ensures out == AdaptAll(id, raws)
  {
    hide Adapt;
    out := [];
    for i := 0 to |raws|
      invariant out == AdaptAll(id, raws[..i])
    {
      assert raws[..i + 1][..i] == raws[..i];
      var adapted := PluginFindingToRiskFinding(id, raws[i]);
      if adapted.Some? {
        out := out + [adapted.value];
      }
    }
    assert raws[..|raws|] == raws;
  }

  method CollectPluginRiskFindings(e: Extensions) returns (out: seq<Finding>)
    ensures out == Collect(e)
  {
    hide AdaptAll;
    out := [];
    for i := 0 to |e.order|
      invariant out == CollectFrom(e, e.order[..i])
    {
      assert e.order[..i + 1][..i] == e.order[..i];
      var id := e.order[i];
      if id !in e.artifacts || e.artifacts[id].NoArtifact? {
        continue;
      }
      var adapted := AdaptArtifact(id, e.artifacts[id].findings);
      out := out + adapted;
    }
    assert e.order[..|e.order|] == e.order;
  }

  // ----- loading

  function Put(e: Extensions, id: string, a: Artifact): Extensions {
    Extensions(if id in e.artifacts then e.order else e.order + [id], e.artifacts[id := a])
  }

  /** A sidecar counts when it is readable and names its own plugin. */
  predicate Usable(sidecars: map<string, Artifact>, id: string) {
    id in sidecars && sidecars[id].Artifact? && sidecars[id].pluginId == id
  }

  function PutSidecars(e: Extensions, sidecars: map<string, Artifact>, ids: seq<string>): Extensions {
    if ids == [] then e
    else
      var before, id := PutSidecars(e, sidecars, ids[..|ids| - 1]), ids[|ids| - 1];
      if Usable(sidecars, id) then Put(before, id, sidecars[id]) else before
  }

  predicate FromPlugin(f: Finding) { f.Finding? && IsPlugin(f.source) }

  function WithoutPlugins(fs: seq<Finding>): seq<Finding> {
    if fs == [] then []
    else WithoutPlugins(fs[..|fs| - 1]) + if FromPlugin(fs[|fs| - 1]) then [] else [fs[|fs| - 1]]
  }

  function Load(r: Report, sidecars: map<string, Artifact>): Report {
    var e := PutSidecars(r.extensions, sidecars, SPECS);
    Report(e, WithoutPlugins(r.findings) + Collect(e))
  }

  method LoadReportWithExtensions(r: Report, sidecars: map<string, Artifact>) returns (merged: Report)
    ensures merged == Load(r, sidecars)
  {
    hide Collect, IsPlugin, SPECS;
    var e := r.extensions;
    for i := 0 to |SPECS|
      invariant e == PutSidecars(r.extensions, sidecars, SPECS[..i])
    {
      assert SPECS[..i + 1][..i] == SPECS[..i];
      var id := SPECS[i];
      if Usable(sidecars, id) {
        e := Extensions(if id in e.artifacts then e.order else e.order + [id], e.artifacts[id := sidecars[id]]);
      }
    }
    assert SPECS[..|SPECS|] == SPECS;
    var base := WithoutPlugins(r.findings);
    var findings := CollectPluginRiskFindings(e);
    merged := Report(e, base + findings);
  }

  // ----- extensions settle

  lemma {:induction false} PutHolds(e: Extensions, sidecars: map<string, Artifact>, ids: seq<string>, id: string)
    ensures var r := PutSidecars(e, sidecars, ids);
      && (id in ids && Usable(sidecars, id) ==> id in r.artifacts && r.artifacts[id] == sidecars[id])
      && (!(id in ids && Usable(sidecars, id)) ==>
            (id in r.artifacts <==> id in e.artifacts) && (id in e.artifacts ==> r.artifacts[id] == e.artifacts[id]))
  {
    hide Usable;
    if ids != [] {
      PutHolds(e, sidecars, ids[..|ids| - 1], id);
      assert ids == ids[..|ids| - 1] + [ids[|ids| - 1]];
    }
  }

  lemma {:induction false} PutAgain(e: Extensions, sidecars: map<string, Artifact>, ids: seq<string>)
    requires forall id | id in ids && Usable(sidecars, id) :: id in e.artifacts && e.artifacts[id] == sidecars[id]
    ensures PutSidecars(e, sidecars, ids) == e
  {
    if ids != [] {
      var init, id := ids[..|ids| - 1], ids[|ids| - 1];
      assert ids == init + [id];
      PutAgain(e, sidecars, init);
      if Usable(sidecars, id) {
        assert e.artifacts[id := sidecars[id]] == e.artifacts;
      }
    }
  }

  lemma ExtensionsSettle(e: Extensions, sidecars: map<string, Artifact>)
    ensures var once := PutSidecars(e, sidecars, SPECS); PutSidecars(once, sidecars, SPECS) == once
  {
    hide PutSidecars, SPECS;
    var once := PutSidecars(e, sidecars, SPECS);
    forall id | id in SPECS && Usable(sidecars, id) ensures id in once.artifacts && once.artifacts[id] == sidecars[id] {
      PutHolds(e, sidecars, SPECS, id);
    }
    PutAgain(once, sidecars, SPECS);
  }

  // ----- findings

  lemma {:induction false} WithoutSplits(a: seq<Finding>, b: seq<Finding>)
    ensures WithoutPlugins(a + b) == WithoutPlugins(a) + WithoutPlugins(b)
  {
    hide FromPlugin;
    if b == [] {
      assert a + b == a;
    } else {
      WithoutSplits(a, b[..|b| - 1]);
      assert (a + b)[..|a + b| - 1] == a + b[..|b| - 1];
    }
  }

  lemma {:induction false} WithoutTwice(fs: seq<Finding>)
    ensures WithoutPlugins(WithoutPlugins(fs)) == WithoutPlugins(fs)
  {
    hide FromPlugin;
    if fs != [] {
      var init, f := fs[..|fs| - 1], fs[|fs| - 1];
      WithoutTwice(init);
      WithoutSplits(WithoutPlugins(init), if FromPlugin(f) then [] else [f]);
      assert [f][..0] == [];
    }
  }

  lemma {:induction false} AdaptedSource(id: string, raws: seq<Raw>)
    ensures forall f | f in AdaptAll(id, raws) :: f.Finding? && f.source == id
  {
    if raws != [] {
      AdaptedSource(id, raws[..|raws| - 1]);
    }
  }

  lemma ProducedSource(e: Extensions, id: string)
    ensures forall f | f in Produced(e, id) :: f.Finding? && f.source == id
  {
    hide AdaptAll;
    if id in e.artifacts && e.artifacts[id].Artifact? {
      AdaptedSource(id, e.artifacts[id].findings);
    }
  }

  lemma {:induction false} WithoutOneSource(fs: seq<Finding>, id: string)
    requires forall f | f in fs :: f.Finding? && f.source == id
    ensures WithoutPlugins(fs) == if IsPlugin(id) then [] else fs
  {
    hide IsPlugin, FromPlugin;
    if fs != [] {
      var n := |fs| - 1;
      WithoutOneSource(fs[..n], id);
      assert fs[n] in fs;
      SourceDecides(fs[n], id);
      if !IsPlugin(id) {
        assert fs == fs[..n] + [fs[n]];
      }
    }
  }

  lemma SourceDecides(f: Finding, id: string)
    requires f.Finding? && f.source == id
    ensures FromPlugin(f) <==> IsPlugin(id)
  {
  }

  lemma ForeignProduced(e: Extensions, id: string)
    ensures WithoutPlugins(Produced(e, id)) == if IsPlugin(id) then [] else Produced(e, id)
  {
    hide Produced, WithoutPlugins, IsPlugin;
    ProducedSource(e, id);
    WithoutOneSource(Produced(e, id), id);
  }

  /** Another program's extension among `ids` yields findings. */
  ghost predicate YieldsForeign(e: Extensions, ids: seq<string>, id: string) {
    id in ids && !IsPlugin(id) && Produced(e, id) != []
  }

  lemma YieldsSnoc(e: Extensions, ids: seq<string>)
    requires ids != []
    ensures var n := |ids| - 1;
      (exists id :: YieldsForeign(e, ids, id))
      <==> (exists id :: YieldsForeign(e, ids[..n], id)) || (!IsPlugin(ids[n]) && Produced(e, ids[n]) != [])
  {
    hide IsPlugin, Produced;
    var n := |ids| - 1;
    assert ids == ids[..n] + [ids[n]];
    if id :| YieldsForeign(e, ids, id) {
      assert id == ids[n] || YieldsForeign(e, ids[..n], id);
    }
    if id :| YieldsForeign(e, ids[..n], id) {
      assert YieldsForeign(e, ids, id);
    }
    assert !IsPlugin(ids[n]) && Produced(e, ids[n]) != [] ==> YieldsForeign(e, ids, ids[n]);
  }

  lemma {:induction false} ForeignNone(e: Extensions, ids: seq<string>)
    ensures WithoutPlugins(CollectFrom(e, ids)) != [] <==> exists id :: YieldsForeign(e, ids, id)
  {
    hide IsPlugin, Produced;
    if ids != [] {
      hide WithoutPlugins, YieldsForeign;
      var init, id := ids[..|ids| - 1], ids[|ids| - 1];
      ForeignNone(e, init);
      WithoutSplits(CollectFrom(e, init), Produced(e, id));
      ForeignProduced(e, id);
      YieldsSnoc(e, ids);
    }
  }

  /** The findings of extensions that no plugin of this program owns. */
  function ForeignFindings(e: Extensions): seq<Finding> { WithoutPlugins(Collect(e)) }

  /** What a second load gives: the foreign extensions' findings once more, before the collected ones. */
  lemma Reload(r: Report, sidecars: map<string, Artifact>)
    ensures var once := Load(r, sidecars);
      var e := once.extensions;
      Load(once, sidecars) == Report(e, WithoutPlugins(r.findings) + ForeignFindings(e) + Collect(e))
  {
    hide PutSidecars, Collect, SPECS, WithoutPlugins;
    ExtensionsSettle(r.extensions, sidecars);
    var e := PutSidecars(r.extensions, sidecars, SPECS);
    WithoutTwice(r.findings);
    WithoutSplits(WithoutPlugins(r.findings), Collect(e));
  }

  lemma {:induction false} OrderHolds(e: Extensions, sidecars: map<string, Artifact>, ids: seq<string>, id: string)
    requires id !in ids
    ensures id in PutSidecars(e, sidecars, ids).order <==> id in e.order
  {
    hide Usable;
    if ids != [] {
      OrderHolds(e, sidecars, ids[..|ids| - 1], id);
      assert ids == ids[..|ids| - 1] + [ids[|ids| - 1]];
    }
  }

  lemma ForeignBeforeAndAfter(e: Extensions, sidecars: map<string, Artifact>, id: string)
    ensures var e' := PutSidecars(e, sidecars, SPECS);
      YieldsForeign(e', e'.order, id) <==> YieldsForeign(e, e.order, id)
  {
    hide SPECS, PutSidecars, AdaptAll;
    if !IsPlugin(id) {
      OrderHolds(e, sidecars, SPECS, id);
      PutHolds(e, sidecars, SPECS, id);
    }
  }

  /** Loading an already merged report changes nothing exactly when no extension of the report, as it was before
      the first load, is another program's and yields a finding. */
  lemma LoadIsIdempotent(r: Report, sidecars: map<string, Artifact>)
    ensures var once := Load(r, sidecars);
      Load(once, sidecars) == once <==> !exists id :: YieldsForeign(r.extensions, r.extensions.order, id)
  {
    hide PutSidecars, SPECS, WithoutPlugins, YieldsForeign, CollectFrom;
    var once := Load(r, sidecars);
    var e := once.extensions;
    Reload(r, sidecars);
    ForeignNone(e, e.order);
    forall id ensures YieldsForeign(e, e.order, id) <==> YieldsForeign(r.extensions, r.extensions.order, id) {
      ForeignBeforeAndAfter(r.extensions, sidecars, id);
    }
    var base := WithoutPlugins(r.findings);
    if ForeignFindings(e) == [] {
      assert base + [] + Collect(e) == base + Collect(e);
    } else {
      assert |base + ForeignFindings(e) + Collect(e)| > |base + Collect(e)|;
    }
  }

  lemma AdaptedOne(id: string, raw: Raw)
    requires Adapt(id, raw).Some?
    ensures AdaptAll(id, [raw]) == [Adapt(id, raw).value]
  {
    assert [raw][..0] == [];
  }

  /** An extension of another program with one finding makes every reload add it again. */
  lemma ForeignFindingRepeats(raw: Raw, id: string)
    requires Adapt(id, raw).Some? && !IsPlugin(id)
    ensures var r := Report(Extensions([id], map[id := Artifact(id, [raw])]), []);
      Load(Load(r, map[]), map[]) != Load(r, map[])
  {
    hide IsPlugin, Adapt, WithoutPlugins, Collect, SPECS;
    var e := Extensions([id], map[id := Artifact(id, [raw])]);
    var r := Report(e, []);
    LoadIsIdempotent(r, map[]);
    AdaptedOne(id, raw);
    assert YieldsForeign(e, e.order, id);
  }

  // ----- each plugin finding as often as its artifact produces it

  ghost predicate Dictionary(e: Extensions) {
    Distinct(e.order) && forall id :: id in e.order <==> id in e.artifacts
  }

  lemma {:induction false} SidecarsKeepDictionary(e: Extensions, sidecars: map<string, Artifact>, ids: seq<string>)
    requires Dictionary(e)
    ensures Dictionary(PutSidecars(e, sidecars, ids))
  {
    hide Usable;
    if ids != [] {
      SidecarsKeepDictionary(e, sidecars, ids[..|ids| - 1]);
    }
  }

  lemma {:induction false} CollectedCount(e: Extensions, ids: seq<string>, f: Finding)
    requires Distinct(ids) && f.Finding?
    ensures multiset(CollectFrom(e, ids))[f] == if f.source in ids then multiset(Produced(e, f.source))[f] else 0
  {
    hide Produced;
    if ids != [] {
      var init, id := ids[..|ids| - 1], ids[|ids| - 1];
      CollectedCount(e, init, f);
      ProducedSource(e, id);
      assert ids == init + [id];
      assert id !in init;
      if id != f.source {
        assert f !in Produced(e, id);
      }
    }
  }

  lemma {:induction false} NoPluginLeft(fs: seq<Finding>, f: Finding)
    ensures f in WithoutPlugins(fs) <==> f in fs && !FromPlugin(f)
  {
    hide FromPlugin;
    if fs != [] {
      NoPluginLeft(fs[..|fs| - 1], f);
      assert fs == fs[..|fs| - 1] + [fs[|fs| - 1]];
    }
  }

  /** After a load the report's own findings come first, in order, and each finding of a plugin occurs
      exactly as often as that plugin's artifact produces it, whatever the report held before. */
  lemma PluginFindingsExactly(r: Report, sidecars: map<string, Artifact>, f: Finding)
    requires Dictionary(r.extensions)
    ensures var once := Load(r, sidecars);
      && WithoutPlugins(r.findings) <= once.findings
      && (FromPlugin(f) ==> multiset(once.findings)[f] == multiset(Produced(once.extensions, f.source))[f])
  {
    hide PutSidecars, WithoutPlugins, IsPlugin, SPECS, CollectFrom, AdaptAll;
    SidecarsKeepDictionary(r.extensions, sidecars, SPECS);
    var e := PutSidecars(r.extensions, sidecars, SPECS);
    if FromPlugin(f) {
      CollectedCount(e, e.order, f);
      NoPluginLeft(r.findings, f);
      var base := WithoutPlugins(r.findings);
      assert multiset(base + Collect(e)) == multiset(base) + multiset(Collect(e));
    }
  }

  // ----- a load, field by field

  const OWN_PLUGINS: set<string> := {"marlinspike-mitre", "marlinspike-arp", "marlinspike-apt", "marlinspike-cisa"}

  lemma PluginsAreOwn(id: string)
    ensures IsPlugin(id) <==> id in OWN_PLUGINS
  {
    assert SPECS[0] in SPECS && SPECS[1] in SPECS && SPECS[2] in SPECS && SPECS[3] in SPECS;
  }

  /** After a load an own plugin's extension is its sidecar when that is a dictionary naming the plugin itself, and
      every other extension is what the report had. */
  lemma ExtensionsAfterLoad(r: Report, sidecars: map<string, Artifact>, id: string)
    ensures var after := Load(r, sidecars).extensions.artifacts;
      if id in OWN_PLUGINS && id in sidecars && sidecars[id].Artifact? && sidecars[id].pluginId == id
      then id in after && after[id] == sidecars[id]
      else (id in after <==> id in r.extensions.artifacts)
           && (id in after ==> after[id] == r.extensions.artifacts[id])
  {
    hide PutSidecars, SPECS, WithoutPlugins, Collect;
    PluginsAreOwn(id);
    PutHolds(r.extensions, sidecars, SPECS, id);
  }

  /** The positions below `n` that are not empty. */
  ghost function Filled(values: seq<string>, n: nat): set<nat>
    requires n <= |values|
  {
    set i: nat | i < n && values[i] != ""
  }

  lemma FilledSnoc(values: seq<string>, n: nat)
    requires n < |values|
    ensures |Filled(values, n + 1)| == |Filled(values, n)| + if values[n] != "" then 1 else 0
  {
    var before, after := Filled(values, n), Filled(values, n + 1);
    assert forall i: nat | i != n :: i in after <==> i in before;
    if values[n] != "" {
      assert after == before + {n};
    } else {
      assert after == before;
    }
  }

  lemma {:induction false} NonEmptyCount(values: seq<string>, n: nat)
    requires n <= |values|
    ensures |NonEmpty(values[..n])| == |Filled(values, n)|
  {
    if n == 0 {
      assert Filled(values, 0) == {};
    } else {
      hide Filled;
      NonEmptyCount(values, n - 1);
      FilledSnoc(values, n - 1);
      assert values[..n][..n - 1] == values[..n - 1];
    }
  }

  lemma {:induction false} NonEmptyPosition(values: seq<string>, n: nat, i: nat)
    requires i < n <= |values| && values[i] != ""
    ensures |Filled(values, i)| < |NonEmpty(values[..n])| && NonEmpty(values[..n])[|Filled(values, i)|] == values[i]
  {
    hide Filled;
    assert values[..n][..n - 1] == values[..n - 1];
    if i < n - 1 {
      NonEmptyPosition(values, n - 1, i);
    } else {
      NonEmptyCount(values, i);
    }
  }

  ghost predicate FirstFilled(texts: seq<string>, i: int) {
    0 <= i < |texts| && texts[i] != "" && forall j | 0 <= j < i :: texts[j] == ""
  }

  lemma {:induction false} FirstTextFound(texts: seq<string>, fallback: string)
    ensures var d := FirstText(texts, fallback);
      || (d == fallback && forall t | t in texts :: t == "")
      || exists i :: FirstFilled(texts, i) && d == texts[i]
  {
    if texts != [] {
      if texts[0] != "" {
        assert FirstFilled(texts, 0);
      } else {
        var rest := texts[1..];
        FirstTextFound(rest, fallback);
        assert texts == [texts[0]] + rest;
        if i :| FirstFilled(rest, i) && FirstText(rest, fallback) == rest[i] {
          assert forall j | 0 < j <= i + 1 :: texts[j] == rest[j - 1];
          assert FirstFilled(texts, i + 1);
        }
      }
    }
  }

  /** A plugin finding is adapted exactly when it is a dictionary with a category, and then field by field: an
      unknown severity reads medium, the first text that is not empty describes it, else its category, and the
      technique ids are those that are not empty, in order, of the first list that has any. */
  lemma AdaptedByFields(id: string, raw: Raw)
    ensures Adapt(id, raw).Some? <==> raw.Raw? && raw.category != ""
    ensures Adapt(id, raw).Some? ==>
      var f, ids := Adapt(id, raw).value, if raw.techniques == [] then raw.ids else raw.techniques;
      && f.Finding? && f.category == raw.category && f.source == id
      && (raw.severity == None ==> f.severity == Medium) && (raw.severity != None ==> Some(f.severity) == raw.severity)
      && f.edges == raw.edges && f.cvss == raw.cvss && f.remediation == raw.remediation
      && (|| (f.description == raw.category && forall t | t in raw.texts :: t == "")
          || exists i :: FirstFilled(raw.texts, i) && f.description == raw.texts[i])
      && (forall v :: v in f.affected <==> v in raw.addresses && v != "")
      && |f.attackIds| == |Filled(ids, |ids|)|
      && forall i: nat | i < |ids| && ids[i] != "" ::
           |Filled(ids, i)| < |f.attackIds| && f.attackIds[|Filled(ids, i)|] == ids[i]
  {
    hide NonEmpty, AddressesOf, FirstText, FirstFilled, Filled;
    if raw.Raw? {
      var ids := if raw.techniques == [] then raw.ids else raw.techniques;
      FirstTextFound(raw.texts, raw.category);
      AddressesOnce(raw.addresses);
      NonEmptyCount(ids, |ids|);
      assert ids[..|ids|] == ids;
      forall i: nat | i < |ids| && ids[i] != ""
        ensures |Filled(ids, i)| < |NonEmpty(ids)| && NonEmpty(ids)[|Filled(ids, i)|] == ids[i]
      {
        NonEmptyPosition(ids, |ids|, i);
      }
    }
  }

  /** The positions of an artifact's findings that adapt to `f`. */
  ghost function Adapting(id: string, raws: seq<Raw>, f: Finding): set<nat> {
    set i: nat | i < |raws| && Adapt(id, raws[i]) == Some(f)
  }

  lemma AdaptingSnoc(id: string, raws: seq<Raw>, raw: Raw, f: Finding)
    ensures |Adapting(id, raws + [raw], f)| == |Adapting(id, raws, f)| + if Adapt(id, raw) == Some(f) then 1 else 0
  {
    hide Adapt;
    var before, after := Adapting(id, raws, f), Adapting(id, raws + [raw], f);
    assert forall i: nat | i != |raws| :: i in after <==> i in before;
    if Adapt(id, raw) == Some(f) {
      assert after == before + {|raws|};
    } else {
      assert after == before;
    }
  }

  lemma {:induction false} AdaptedCount(id: string, raws: seq<Raw>, f: Finding)
    ensures multiset(AdaptAll(id, raws))[f] == |Adapting(id, raws, f)|
  {
    hide Adapt;
    if raws == [] {
      assert Adapting(id, raws, f) == {};
    } else {
      hide Adapting;
      var init, raw := raws[..|raws| - 1], raws[|raws| - 1];
      AdaptedCount(id, init, f);
      AdaptingSnoc(id, init, raw, f);
      assert init + [raw] == raws;
    }
  }

  lemma CountSnoc(fs: seq<Finding>, last: Finding, f: Finding)
    ensures multiset(fs + [last])[f] == multiset(fs)[f] + if last == f then 1 else 0
  {
  }

  lemma WithoutSnoc(fs: seq<Finding>, last: Finding)
    ensures WithoutPlugins(fs + [last]) == if FromPlugin(last) then WithoutPlugins(fs) else WithoutPlugins(fs) + [last]
  {
    hide FromPlugin;
    assert (fs + [last])[..|fs|] == fs;
  }

  lemma {:induction false} OthersStay(fs: seq<Finding>, f: Finding)
    ensures multiset(WithoutPlugins(fs))[f] == if FromPlugin(f) then 0 else multiset(fs)[f]
  {
    if fs != [] {
      hide FromPlugin, WithoutPlugins;
      var init, last := fs[..|fs| - 1], fs[|fs| - 1];
      OthersStay(init, f);
      WithoutSnoc(init, last);
      CountSnoc(init, last, f);
      CountSnoc(WithoutPlugins(init), last, f);
      assert fs == init + [last];
    }
  }

  /** How often a load's extension `id` adapts to finding `f`. */
  ghost function Yield(e: Extensions, id: string, f: Finding): nat {
    if id in e.artifacts && e.artifacts[id].Artifact? then |Adapting(id, e.artifacts[id].findings, f)| else 0
  }

  /** After a load a finding occurs as often as its source's extension yields it, and, unless that source is one of
      the four plugins, as often as the report had it besides. */
  lemma FindingsAfterLoad(r: Report, sidecars: map<string, Artifact>, f: Finding)
    requires Dictionary(r.extensions)
    ensures var once := Load(r, sidecars);
      multiset(once.findings)[f]
      == (if f.Finding? then Yield(once.extensions, f.source, f) else 0)
         + if f.Finding? && f.source in OWN_PLUGINS then 0 else multiset(r.findings)[f]
  {
    hide PutSidecars, WithoutPlugins, IsPlugin, SPECS, CollectFrom, AdaptAll, Adapt;
    SidecarsKeepDictionary(r.extensions, sidecars, SPECS);
    var e := PutSidecars(r.extensions, sidecars, SPECS);
    var base := WithoutPlugins(r.findings);
    OthersStay(r.findings, f);
    assert multiset(base + Collect(e)) == multiset(base) + multiset(Collect(e));
    if f.Finding? {
      PluginsAreOwn(f.source);
      CollectedCount(e, e.order, f);
      if f.source in e.artifacts && e.artifacts[f.source].Artifact? {
        AdaptedCount(f.source, e.artifacts[f.source].findings, f);
      }
    } else {
      BareNeverCollected(e, e.order, f);
    }
  }

  lemma {:induction false} BareNeverCollected(e: Extensions, ids: seq<string>, f: Finding)
    requires f.Bare?
    ensures f !in CollectFrom(e, ids)
  {
    hide Produced;
    if ids != [] {
      BareNeverCollected(e, ids[..|ids| - 1], f);
      ProducedSource(e, ids[|ids| - 1]);
    }
  }

  /** The affected addresses of an adapted finding are the non-empty ones, once each. */
  lemma {:induction false} AddressesOnce(values: seq<string>)
    ensures Distinct(AddressesOf(values))
    ensures forall v :: v in AddressesOf(values) <==> v in values && v != ""
  {
    if values != [] {
      var init, v := values[..|values| - 1], values[|values| - 1];
      AddressesOnce(init);
      assert values == init + [v];
      assert forall w :: w in values <==> w in init || w == v;
    }
  }
}
