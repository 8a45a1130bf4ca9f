/** The recursive merge of protocol identity dictionaries that chunks of one capture report. */
module JsonMerge {

  /** A number is kept by its rendering; objects are unordered, as the source's item markers are. */
  datatype Json =
    | JNull
    | JBool(flag: bool)
    | JNum(text: string)
    | JStr(chars: string)
    | JList(items: seq<Json>)
    | JObj(fields: map<string, Json>)

  /** The values the merge treats as absent. */
  predicate Blank(j: Json) {
    j == JNull || j == JStr("") || j == JList([]) || j == JObj(map[])
  }

  function Fields(j: Json): map<string, Json> { if j.JObj? then j.fields else map[] }

  /** `xs`, then the items of `ys` that are not there yet, once each. */
  function AppendNew(xs: seq<Json>, ys: seq<Json>): seq<Json> {
    if ys == [] then xs
    else
      var init, y := AppendNew(xs, ys[..|ys| - 1]), ys[|ys| - 1];
      if y in init then init else init + [y]
  }

  function Lookup(m: map<string, Json>, k: string): Json { if k in m then m[k] else JNull }

  function MergeField(current: Json, value: Json): Json
    decreases value, 1
  {
    if current.JObj? && value.JObj? then Merge(current, value)
    else if current.JList? && value.JList? then JList(AppendNew(current.items, value.items))
    else if current.JBool? && value.JBool? then JBool(current.flag || value.flag)
    else if Blank(current) then value
    else current
  }

  function Merge(existing: Json, incoming: Json): Json
    decreases incoming, 0
  {
    var a := Fields(existing);
    if incoming.JObj? then
      var b := incoming.fields;
      JObj(map k | k in a.Keys + b.Keys :: if k in b then MergeField(Lookup(a, k), b[k]) else a[k])
    else JObj(a)
  }

  method CombineLists(xs: seq<Json>, ys: seq<Json>) returns (combined: seq<Json>)
    ensures combined == AppendNew(xs, ys)
  {
    combined := xs;
    for i := 0 to |ys|
      invariant combined == AppendNew(xs, ys[..i])
    {
      assert ys[..i + 1][..i] == ys[..i];
      if ys[i] !in combined {
        combined := combined + [ys[i]];
      }
    }
    assert ys[..|ys|] == ys;
  }

  ghost predicate MergedSoFar(merged: map<string, Json>, a: map<string, Json>, b: map<string, Json>, todo: set<string>)
  {
    && todo <= b.Keys
    && merged.Keys == a.Keys + (b.Keys - todo)
    && forall k :: k in merged ==>
         merged[k] == if k in b && k !in todo then MergeField(Lookup(a, k), b[k]) else a[k]
  }

  lemma NothingMerged(a: map<string, Json>, b: map<string, Json>)
    ensures MergedSoFar(a, a, b, b.Keys)
  {
  }

  lemma MergedOneMore(merged: map<string, Json>, a: map<string, Json>, b: map<string, Json>, todo: set<string>,
                      key: string)
    requires MergedSoFar(merged, a, b, todo) && key in todo
    ensures key in b
    ensures MergedSoFar(merged[key := MergeField(Lookup(merged, key), b[key])], a, b, todo - {key})
  {
    hide MergeField;
  }

  lemma AllMerged(merged: map<string, Json>, existing: Json, incoming: Json)
    requires incoming.JObj? && MergedSoFar(merged, Fields(existing), incoming.fields, {})
    ensures JObj(merged) == Merge(existing, incoming)
  {
    hide MergeField;
    assert merged == Merge(existing, incoming).fields;
  }

  method MergeNested(existing: Json, incoming: Json) returns (r: Json)
    ensures r == Merge(existing, incoming)
    decreases incoming, 0
  {
    hide MergeField, MergedSoFar;
    var a := if existing.JObj? then existing.fields else map[];
    if !incoming.JObj? {
      return JObj(a);
    }
    var b := incoming.fields;
    var merged, todo := a, b.Keys;
    NothingMerged(a, b);
    while todo != {}
      invariant todo <= b.Keys && MergedSoFar(merged, a, b, todo)
      decreases |todo|
    {
      var key :| key in todo;
      var v := MergeOne(Lookup(merged, key), b[key]);
      MergedOneMore(merged, a, b, todo, key);
      merged := merged[key := v];
      todo := todo - {key};
    }
    r := JObj(merged);
    AllMerged(merged, existing, incoming);
  }

  /** One pass of the loop over the incoming items. */
  method MergeOne(current: Json, value: Json) returns (v: Json)
    ensures v == MergeField(current, value)
    decreases value, 1
  {
    hide AppendNew;
    if current.JObj? && value.JObj? {
      v := MergeNested(current, value);
    } else if current.JList? && value.JList? {
      var combined := CombineLists(current.items, value.items);
      v := JList(combined);
    } else if current.JBool? && value.JBool? {
      v := JBool(current.flag || value.flag);
    } else if Blank(current) {
      v := value;
    } else {
      v := current;
    }
  }

  // ----- lists

  /** The combined list starts with the old one and holds exactly the items of both. */
  lemma {:induction false} AppendNewHolds(xs: seq<Json>, ys: seq<Json>, x: Json)
    ensures xs <= AppendNew(xs, ys)
    ensures x in AppendNew(xs, ys) <==> x in xs || x in ys
  {
    if ys != [] {
      var init := ys[..|ys| - 1];
      AppendNewHolds(xs, init, x);
      AppendNewHolds(xs, init, ys[|ys| - 1]);
      assert ys == init + [ys[|ys| - 1]];
    }
  }

  lemma {:induction false} AppendNothingNew(xs: seq<Json>, ys: seq<Json>)
    requires forall y | y in ys :: y in xs
    ensures AppendNew(xs, ys) == xs
  {
    if ys != [] {
      AppendNothingNew(xs, ys[..|ys| - 1]);
    }
  }

  // ----- re-merging absorbs

  lemma {:induction false} FieldSelfMerge(j: Json)
    ensures MergeField(j, j) == j
    decreases j
  {
    hide AppendNew;
    if j.JObj? {
      forall k | k in j.fields ensures MergeField(j.fields[k], j.fields[k]) == j.fields[k] {
        FieldSelfMerge(j.fields[k]);
      }
      assert Merge(j, j).fields == j.fields;
    } else if j.JList? {
      AppendNothingNew(j.items, j.items);
    }
  }

  lemma {:induction false} FieldAbsorbs(c: Json, v: Json)
    ensures MergeField(MergeField(c, v), v) == MergeField(c, v)
    decreases v, 1
  {
    hide AppendNew;
    if c.JObj? && v.JObj? {
      MergeAbsorbs(c, v);
    } else if c.JList? && v.JList? {
      forall y | y in v.items ensures y in AppendNew(c.items, v.items) {
        AppendNewHolds(c.items, v.items, y);
      }
      AppendNothingNew(AppendNew(c.items, v.items), v.items);
    } else if Blank(c) {
      FieldSelfMerge(v);
    }
  }

  /** Merging the same dictionary twice changes nothing more. */
  lemma {:induction false} MergeAbsorbs(a: Json, b: Json)
    ensures Merge(Merge(a, b), b) == Merge(a, b)
    decreases b, 0
  {
    hide MergeField, Lookup;
    var once := Merge(a, b);
    if b.JObj? {
      forall k | k in b.fields
        ensures MergeField(MergeField(Lookup(Fields(a), k), b.fields[k]), b.fields[k]) == once.fields[k]
      {
        FieldAbsorbs(Lookup(Fields(a), k), b.fields[k]);
      }
      forall k | k in once.fields ensures Merge(once, b).fields[k] == once.fields[k] {
        Looked(once.fields, k);
      }
      assert Merge(once, b).fields == once.fields;
    }
  }

  lemma Looked(m: map<string, Json>, k: string)
    ensures k in m ==> Lookup(m, k) == m[k]
    ensures k !in m ==> Lookup(m, k) == JNull
  {
  }

  // ----- nothing recorded is lost

  /** Null, the empty string, the empty list and the empty dictionary. */
  ghost predicate SaysNothing(j: Json) {
    || j.JNull?
    || (j.JStr? && |j.chars| == 0)
    || (j.JList? && |j.items| == 0)
    || (j.JObj? && |j.fields| == 0)
  }

  lemma BlankSaysNothing(j: Json)
    ensures Blank(j) <==> SaysNothing(j)
  {
    if j.JObj? && |j.fields| == 0 {
      assert j.fields == map[];
    }
  }

  /** `later` still says what `earlier` said: a blank says nothing, a boolean may only turn true, a list
      may only grow at its end, a dictionary may only gain keys, and any other value stays. */
  ghost predicate Keeps(earlier: Json, later: Json) {
    SaysNothing(earlier) ||
    match earlier
    case JBool(b) => later.JBool? && (b ==> later.flag)
    case JList(xs) => later.JList? && xs <= later.items
    case JObj(m) => later.JObj? && forall k | k in m :: k in later.fields && Keeps(m[k], later.fields[k])
    case _ => later == earlier
  }

  lemma {:induction false} KeepsItself(j: Json)
    ensures Keeps(j, j)
    decreases j
  {
    if j.JObj? {
      forall k | k in j.fields ensures Keeps(j.fields[k], j.fields[k]) {
        KeepsItself(j.fields[k]);
      }
    }
  }

  lemma {:induction false} KeepsTransitive(a: Json, b: Json, c: Json)
    requires Keeps(a, b) && Keeps(b, c)
    ensures Keeps(a, c)
    decreases a
  {
    if a.JObj? && !SaysNothing(a) {
      var k0 :| k0 in a.fields;
      assert k0 in b.fields && !SaysNothing(b);
      forall k | k in a.fields ensures k in c.fields && Keeps(a.fields[k], c.fields[k]) {
        KeepsTransitive(a.fields[k], b.fields[k], c.fields[k]);
      }
    }
  }

  lemma {:induction false} FieldKeeps(c: Json, v: Json)
    ensures Keeps(c, MergeField(c, v))
    decreases v, 1
  {
    hide AppendNew;
    if c.JObj? && v.JObj? {
      MergeKeeps(c, v);
    } else if c.JList? && v.JList? {
      AppendNewHolds(c.items, v.items, JNull);
    } else {
      KeepsItself(c);
    }
  }

  /** The merged dictionary has the keys of both sides and keeps all that an existing dictionary said. An
      existing value that is no dictionary is dropped, so exactly a dictionary or a blank loses nothing. */
  lemma {:induction false} MergeKeeps(a: Json, b: Json)
    ensures Merge(a, b).JObj? && Merge(a, b).fields.Keys == Fields(a).Keys + Fields(b).Keys
    ensures Keeps(JObj(Fields(a)), Merge(a, b))
    ensures Keeps(a, Merge(a, b)) <==> a.JObj? || SaysNothing(a)
    decreases b, 0
  {
    hide MergeField, Keeps, SaysNothing;
    var m, r := Fields(a), Merge(a, b);
    forall k | k in m ensures k in r.fields && Keeps(m[k], r.fields[k]) {
      if k in Fields(b) {
        FieldKeeps(m[k], b.fields[k]);
      } else {
        KeepsItself(m[k]);
      }
    }
    KeepsDictionary(m, r);
    DroppedUnlessBlank(a, r);
  }

  lemma KeepsDictionary(m: map<string, Json>, r: Json)
    requires r.JObj? && forall k | k in m :: k in r.fields && Keeps(m[k], r.fields[k])
    ensures Keeps(JObj(m), r)
  {
  }

  lemma DroppedUnlessBlank(a: Json, r: Json)
    requires r.JObj?
    ensures !a.JObj? ==> (Keeps(a, r) <==> SaysNothing(a))
  {
  }

  /** What one key of the merged dictionary holds: a blank slot takes the incoming value, two lists give
      the items of both, two booleans their disjunction, two dictionaries their merge, and any other
      pair keeps the existing value. */
  lemma MergedEntry(a: Json, b: Json, k: string)
    requires k in Fields(b)
    ensures var c, v, r := Lookup(Fields(a), k), Fields(b)[k], Lookup(Fields(Merge(a, b)), k);
      && (c.JObj? && v.JObj? ==> r == Merge(c, v))
      && (c.JList? && v.JList? ==> r.JList? && forall x :: x in r.items <==> x in c.items || x in v.items)
      && (c.JBool? && v.JBool? ==> r == JBool(c.flag || v.flag))
      && (SaysNothing(c) && !(c.JList? && v.JList?) ==> r == v)
      && (!SaysNothing(c) && !(c.JObj? && v.JObj?) && !(c.JList? && v.JList?) && !(c.JBool? && v.JBool?) ==> r == c)
  {
    hide AppendNew;
    var c, v := Lookup(Fields(a), k), Fields(b)[k];
    if c.JList? && v.JList? {
      forall x ensures x in AppendNew(c.items, v.items) <==> x in c.items || x in v.items {
        AppendNewHolds(c.items, v.items, x);
      }
    } else if c == JObj(map[]) && v.JObj? {
      assert Merge(c, v).fields == v.fields;
    }
  }
}
