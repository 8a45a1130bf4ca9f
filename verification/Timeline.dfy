/** Adaptive timeline buckets: conversations spread over at most 121 equal buckets by in-place array
    updates. Times are exact seconds. */
module Timeline {
  import opened Wrappers

  /** A conversation; `firstSeen` and `lastSeen` are None when they cannot be read as a time. */
  datatype Conversation = Conversation(firstSeen: Option<real>, lastSeen: Option<real>, packets: int, octets: int)

  datatype Entry = Entry(first: real, last: real, packets: int, octets: int)

  datatype Bucket = Bucket(t: real, packets: int, octets: int, conversations: int)

  datatype Timeline = Timeline(
    firstSeen: Option<real>, lastSeen: Option<real>, bucketSeconds: int, buckets: seq<Bucket>)

  function ToEntry(c: Conversation): Entry
    requires c.firstSeen.Some?
  {
    var first := c.firstSeen.value;
    Entry(first, if c.lastSeen.None? || c.lastSeen.value < first then first else c.lastSeen.value, c.packets, c.octets)
  }

  /** The conversations with a usable start, a missing or earlier end replaced by the start. */
  function Entries(cs: seq<Conversation>): (es: seq<Entry>)
    ensures forall e | e in es :: e.first <= e.last
  {
    if cs == [] then []
    else
      var c := cs[|cs| - 1];
      Entries(cs[..|cs| - 1]) + if c.firstSeen.Some? then [ToEntry(c)] else []
  }

  function Earliest(es: seq<Entry>): (t: real)
    requires es != []
    ensures forall e | e in es :: t <= e.first
    ensures exists e :: e in es && e.first == t
  {
    if |es| == 1 then es[0].first
    else
      assert es == [es[0]] + es[1..];
      var t := Earliest(es[1..]);
      if es[0].first < t then es[0].first else t
  }

  function Latest(es: seq<Entry>): (t: real)
    requires es != []
    ensures forall e | e in es :: e.last <= t
    ensures exists e :: e in es && e.last == t
  {
    if |es| == 1 then es[0].last
    else
      assert es == [es[0]] + es[1..];
      var t := Latest(es[1..]);
      if es[0].last > t then es[0].last else t
  }

  function Ceil(x: real): int { -((-x).Floor) }

  type Width = n: int | n > 0 witness 1

  /** `n` buckets of `width` seconds each, from `origin`. */
  datatype Grid = Grid(origin: real, width: Width, n: int) {
    function Start(i: int): real { origin + i as real * width as real }
    function Index(t: real): int { ((t - origin) / width as real).Floor }
    /** The interval [first, last] meets the half-open span of bucket `i`. */
    predicate Meets(e: Entry, i: int) { e.first < Start(i + 1) && Start(i) <= e.last }
  }

  function MakeGrid(es: seq<Entry>): Grid
    requires es != []
  {
    var first, last := Earliest(es), Latest(es);
    var span := last - first;
    var width := if span > 0.0 && Ceil(span / 120.0) > 1 then Ceil(span / 120.0) else 1;
    Grid(first, width, if span > 0.0 then Ceil(span / width as real) + 1 else 1)
  }

  function Clamp(i: int, n: int): int {
    var upper := if i < n - 1 then i else n - 1;
    if upper > 0 then upper else 0
  }

  /** The buckets an entry is spread over, with the source's clamps. */
  function From(g: Grid, e: Entry): int { Clamp(g.Index(e.first), g.n) }

  function To(g: Grid, e: Entry): int { Clamp(g.Index(e.last), g.n) }

  predicate InRange(g: Grid, e: Entry) { 0 <= From(g, e) <= To(g, e) < g.n }

  /** Bucket `i`'s part of `total` spread over [from, to]: an equal share, the remainder to the first ones. */
  function Share(total: int, from: int, to: int, i: int): int {
    if from <= i <= to then
      var n := to - from + 1;
      total / n + if i - from < total % n then 1 else 0
    else 0
  }

  // ----- the column sums

  datatype Measure = Packets | Octets

  function Amount(e: Entry, m: Measure): int { if m == Packets then e.packets else e.octets }

  function SpreadAt(g: Grid, es: seq<Entry>, m: Measure, i: int): int {
    if es == [] then 0
    else
      var e := es[|es| - 1];
      SpreadAt(g, es[..|es| - 1], m, i) + Share(Amount(e, m), From(g, e), To(g, e), i)
  }

  function CountAt(g: Grid, es: seq<Entry>, i: int): nat {
    if es == [] then 0
    else
      var e := es[|es| - 1];
      CountAt(g, es[..|es| - 1], i) + if From(g, e) <= i <= To(g, e) then 1 else 0
  }

  function Column(g: Grid, es: seq<Entry>, i: int): Bucket {
    Bucket(g.Start(i), SpreadAt(g, es, Packets, i), SpreadAt(g, es, Octets, i), CountAt(g, es, i))
  }

  predicate Empty(b: Bucket) { b.packets == 0 && b.octets == 0 && b.conversations == 0 }

  /** The non-empty columns below `k`. */
  function Emitted(g: Grid, es: seq<Entry>, k: nat): seq<Bucket> {
    if k == 0 then []
    else Emitted(g, es, k - 1) + if Empty(Column(g, es, k - 1)) then [] else [Column(g, es, k - 1)]
  }

  /** The timeline that the conversations determine. */
  function TimelineOf(cs: seq<Conversation>): Timeline {
    var es := Entries(cs);
    if es == [] then Timeline(None, None, 1, [])
    else
      var g := MakeGrid(es);
      GridFits(es);
      Timeline(Some(Earliest(es)), Some(Latest(es)), g.width, Emitted(g, es, g.n))
  }

  // ----- the method

  method AddEntry(packets: array<int>, octets: array<int>, counts: array<int>, from: int, to: int, e: Entry)
    requires packets.Length == octets.Length == counts.Length && 0 <= from <= to < packets.Length
    requires packets != octets && octets != counts && packets != counts
    modifies packets, octets, counts
    ensures forall i | 0 <= i < packets.Length :: packets[i] == old(packets[i]) + Share(e.packets, from, to, i)
    ensures forall i | 0 <= i < packets.Length :: octets[i] == old(octets[i]) + Share(e.octets, from, to, i)
    ensures forall i | 0 <= i < packets.Length :: counts[i] == old(counts[i]) + if from <= i <= to then 1 else 0
  {
    var span := to - from + 1;
    var packetsEach, packetsRest := e.packets / span, e.packets % span;
    var octetsEach, octetsRest := e.octets / span, e.octets % span;
    for offset := 0 to span
      invariant forall i | 0 <= i < packets.Length ::
        packets[i] == old(packets[i]) + if i < from + offset then Share(e.packets, from, to, i) else 0
      invariant forall i | 0 <= i < packets.Length ::
        octets[i] == old(octets[i]) + if i < from + offset then Share(e.octets, from, to, i) else 0
      invariant forall i | 0 <= i < packets.Length ::
        counts[i] == old(counts[i]) + if from <= i < from + offset then 1 else 0
    {
      var i := from + offset;
      counts[i] := counts[i] + 1;
      packets[i] := packets[i] + packetsEach + if offset < packetsRest then 1 else 0;
      octets[i] := octets[i] + octetsEach + if offset < octetsRest then 1 else 0;
    }
  }

  method CollectEntries(cs: seq<Conversation>) returns (es: seq<Entry>)
    ensures es == Entries(cs)
  {
    es := [];
    for k := 0 to |cs|
      invariant es == Entries(cs[..k])
    {
      assert cs[..k + 1][..k] == cs[..k];
      if cs[k].firstSeen.Some? {
        es := es + [ToEntry(cs[k])];
      }
    }
    assert cs[..|cs|] == cs;
  }

  method FillColumns(g: Grid, es: seq<Entry>) returns (packets: array<int>, octets: array<int>, counts: array<int>)
    requires g.n >= 0 && forall e | e in es :: InRange(g, e)
    ensures packets.Length == octets.Length == counts.Length == g.n
    ensures forall i | 0 <= i < g.n :: packets[i] == SpreadAt(g, es, Packets, i)
    ensures forall i | 0 <= i < g.n :: octets[i] == SpreadAt(g, es, Octets, i)
    ensures forall i | 0 <= i < g.n :: counts[i] == CountAt(g, es, i)
  {
    hide From, To, Share;
    packets, octets, counts := new int[g.n](_ => 0), new int[g.n](_ => 0), new int[g.n](_ => 0);
    for k := 0 to |es|
      invariant forall i | 0 <= i < g.n :: packets[i] == SpreadAt(g, es[..k], Packets, i)
      invariant forall i | 0 <= i < g.n :: octets[i] == SpreadAt(g, es[..k], Octets, i)
      invariant forall i | 0 <= i < g.n :: counts[i] == CountAt(g, es[..k], i)
    {
      assert es[..k + 1][..k] == es[..k] && es[k] in es && InRange(g, es[k]);
      AddEntry(packets, octets, counts, From(g, es[k]), To(g, es[k]), es[k]);
    }
    assert es[..|es|] == es;
  }

  method ComputeTimelineBuckets(cs: seq<Conversation>) returns (r: Timeline)
    ensures r == TimelineOf(cs)
  {
    hide MakeGrid, From, To, SpreadAt, CountAt;
    var es := CollectEntries(cs);
    if es == [] {
      return Timeline(None, None, 1, []);
    }
    var g := MakeGrid(es);
    GridFits(es);
    var packets, octets, counts := FillColumns(g, es);
    var buckets: seq<Bucket> := [];
    for i := 0 to g.n
      invariant buckets == Emitted(g, es, i)
    {
      if packets[i] != 0 || octets[i] != 0 || counts[i] != 0 {
        buckets := buckets + [Bucket(g.Start(i), packets[i], octets[i], counts[i])];
      }
    }
    r := Timeline(Some(Earliest(es)), Some(Latest(es)), g.width, buckets);
  }

  // ----- geometry

  lemma DivideBelow(x: real, w: real, k: real)
    requires w > 0.0
    ensures x <= k * w <==> x / w <= k
    ensures x < k * w <==> x / w < k
  {
    assert x == (x / w) * w;
  }

  lemma CeilBounds(x: real)
    ensures x <= Ceil(x) as real < x + 1.0
  {
  }

  lemma Ordered(x: real, y: real, w: real)
    requires w > 0.0 && x <= y
    ensures x / w <= y / w && (x >= 0.0 ==> x / w >= 0.0)
  {
    DivideBelow(x, w, y / w);
    assert y == (y / w) * w;
  }

  /** The grid covers its entries: at most 121 buckets, and the last time falls into the last one. */
  lemma GridSize(es: seq<Entry>)
    requires es != [] && Earliest(es) <= Latest(es)
    ensures var g := MakeGrid(es);
      1 <= g.n <= 121 && g.origin == Earliest(es) && g.Index(g.origin) == 0 && g.Index(Latest(es)) < g.n
  {
    var g := MakeGrid(es);
    var span, w := Latest(es) - Earliest(es), g.width as real;
    if span > 0.0 {
      CeilBounds(span / 120.0);
      CeilBounds(span / w);
      DivideBelow(span, w, 120.0);
      Ordered(0.0, span, w);
    }
  }

  lemma IndexesFit(g: Grid, e: Entry, end: real)
    requires g.origin <= e.first <= e.last <= end && g.Index(end) < g.n
    ensures InRange(g, e) && From(g, e) == g.Index(e.first) && To(g, e) == g.Index(e.last)
  {
    var w := g.width as real;
    Ordered(0.0, e.first - g.origin, w);
    Ordered(e.first - g.origin, e.last - g.origin, w);
    Ordered(e.last - g.origin, end - g.origin, w);
  }

  /** Every index is in range before the clamps, which change nothing. */
  lemma GridFits(es: seq<Entry>)
    requires es != [] && forall e | e in es :: e.first <= e.last
    ensures var g := MakeGrid(es);
      && 1 <= g.n <= 121
      && forall e | e in es ::
           InRange(g, e) && From(g, e) == g.Index(e.first) && To(g, e) == g.Index(e.last)
  {
    hide MakeGrid, From, To, InRange;
    assert Earliest(es) <= es[0].first <= es[0].last <= Latest(es);
    GridSize(es);
    forall e | e in es
      ensures InRange(MakeGrid(es), e)
      ensures From(MakeGrid(es), e) == MakeGrid(es).Index(e.first) && To(MakeGrid(es), e) == MakeGrid(es).Index(e.last)
    {
      IndexesFit(MakeGrid(es), e, Latest(es));
    }
  }

  /** An entry is spread over exactly the buckets whose half-open span its interval meets. */
  lemma SpreadOverMet(g: Grid, e: Entry, i: int)
    ensures g.Index(e.first) <= i <= g.Index(e.last) <==> g.Meets(e, i)
  {
    var w := g.width as real;
    DivideBelow(e.first - g.origin, w, (i + 1) as real);
    DivideBelow(e.last - g.origin, w, i as real);
  }

  /** A bucket's count is the number of entries whose interval meets it. */
  lemma {:induction false} CountsMetEntries(g: Grid, es: seq<Entry>, i: int)
    requires forall e | e in es :: From(g, e) == g.Index(e.first) && To(g, e) == g.Index(e.last)
    ensures CountAt(g, es, i) == |set k: nat | k < |es| && g.Meets(es[k], i)|
  {
    hide From, To, Grid.Meets;
    var met := set k: nat | k < |es| && g.Meets(es[k], i);
    if es == [] {
      assert met == {};
    } else {
      var n := |es| - 1;
      var before := set k: nat | k < n && g.Meets(es[..n][k], i);
      assert forall e | e in es[..n] :: e in es;
      CountsMetEntries(g, es[..n], i);
      SpreadOverMet(g, es[n], i);
      assert met == before + if g.Meets(es[n], i) then {n} else {};
    }
  }

  // ----- conservation

  function Sum(g: Grid, es: seq<Entry>, m: Measure, k: nat): int {
    if k == 0 then 0 else Sum(g, es, m, k - 1) + SpreadAt(g, es, m, k - 1)
  }

  function ShareSum(total: int, from: int, to: int, k: nat): int {
    if k == 0 then 0 else ShareSum(total, from, to, k - 1) + Share(total, from, to, k - 1)
  }

  function Total(es: seq<Entry>, m: Measure): int {
    if es == [] then 0 else Total(es[..|es| - 1], m) + Amount(es[|es| - 1], m)
  }

  /** Equal shares and remainder, up to a bucket inside the interval. */
  lemma {:induction false} PartialShares(total: int, from: int, to: int, k: nat)
    requires 0 <= from <= to && from <= k <= to + 1
    ensures var n := to - from + 1;
      ShareSum(total, from, to, k) == (k - from) * (total / n) + if k - from < total % n then k - from else total % n
  {
    if k == from {
      NoShareBefore(total, from, to, k);
    } else {
      PartialShares(total, from, to, k - 1);
    }
  }

  lemma {:induction false} NoShareBefore(total: int, from: int, to: int, k: nat)
    requires k <= from
    ensures ShareSum(total, from, to, k) == 0
  {
    if k > 0 {
      NoShareBefore(total, from, to, k - 1);
    }
  }

  /** The shares of one entry add up to its total. */
  lemma {:induction false} SharesAddUp(total: int, from: int, to: int, k: nat)
    requires 0 <= from <= to < k
    ensures ShareSum(total, from, to, k) == total
  {
    if k == to + 1 {
      PartialShares(total, from, to, k);
    } else {
      SharesAddUp(total, from, to, k - 1);
    }
  }

  lemma {:induction false} SumSplits(g: Grid, es: seq<Entry>, m: Measure, k: nat)
    requires es != []
    ensures var e := es[|es| - 1];
      Sum(g, es, m, k) == Sum(g, es[..|es| - 1], m, k) + ShareSum(Amount(e, m), From(g, e), To(g, e), k)
  {
    if k > 0 {
      SumSplits(g, es, m, k - 1);
    }
  }

  lemma {:induction false} ColumnsConserve(g: Grid, es: seq<Entry>, m: Measure)
    requires g.n >= 0 && forall e | e in es :: InRange(g, e)
    ensures Sum(g, es, m, g.n) == Total(es, m)
  {
    if es == [] {
      NothingSpread(g, m, g.n);
    } else {
      var before, e := es[..|es| - 1], es[|es| - 1];
      assert e in es && forall e' | e' in before :: e' in es;
      ColumnsConserve(g, before, m);
      SumSplits(g, es, m, g.n);
      SharesAddUp(Amount(e, m), From(g, e), To(g, e), g.n);
    }
  }

  lemma {:induction false} NothingSpread(g: Grid, m: Measure, k: nat)
    ensures Sum(g, [], m, k) == 0
  {
    if k > 0 {
      NothingSpread(g, m, k - 1);
    }
  }

  function BucketAmount(b: Bucket, m: Measure): int { if m == Packets then b.packets else b.octets }

  function BucketSum(bs: seq<Bucket>, m: Measure): int {
    if bs == [] then 0 else BucketSum(bs[..|bs| - 1], m) + BucketAmount(bs[|bs| - 1], m)
  }

  lemma BucketSumSnoc(bs: seq<Bucket>, b: Bucket, m: Measure)
    ensures BucketSum(bs + [b], m) == BucketSum(bs, m) + BucketAmount(b, m)
  {
    assert (bs + [b])[..|bs|] == bs;
  }

  lemma ColumnAmount(g: Grid, es: seq<Entry>, m: Measure, i: int)
    ensures BucketAmount(Column(g, es, i), m) == SpreadAt(g, es, m, i)
    ensures Empty(Column(g, es, i)) ==> SpreadAt(g, es, m, i) == 0
  {
  }

  /** Dropping empty buckets loses nothing. */
  lemma {:induction false} EmittedConserves(g: Grid, es: seq<Entry>, m: Measure, k: nat)
    ensures BucketSum(Emitted(g, es, k), m) == Sum(g, es, m, k)
    ensures |Emitted(g, es, k)| <= k
  {
    hide SpreadAt, CountAt, Column, BucketSum, BucketAmount, Empty;
    if k == 0 {
      BucketSumOfNone(m);
    } else {
      EmittedConserves(g, es, m, k - 1);
      var before, c := Emitted(g, es, k - 1), Column(g, es, k - 1);
      BucketSumSnoc(before, c, m);
      ColumnAmount(g, es, m, k - 1);
      assert before + [] == before;
    }
  }

  lemma BucketSumOfNone(m: Measure)
    ensures BucketSum([], m) == 0
  {
  }

  /** A column is dropped exactly when no entry meets it. */
  lemma {:induction false} UnmetColumnIsEmpty(g: Grid, es: seq<Entry>, i: int)
    requires forall e | e in es :: From(g, e) <= To(g, e)
    ensures CountAt(g, es, i) == 0 ==> SpreadAt(g, es, Packets, i) == SpreadAt(g, es, Octets, i) == 0
  {
    hide From, To;
    if es != [] {
      var before := es[..|es| - 1];
      assert forall e | e in before :: e in es;
      UnmetColumnIsEmpty(g, before, i);
    }
  }

  /** Emitted buckets are the met columns in order, each with its own columns' numbers. */
  lemma {:induction false} EmittedAreMetColumns(g: Grid, es: seq<Entry>, k: nat, b: Bucket)
    requires forall e | e in es :: From(g, e) <= To(g, e)
    ensures b in Emitted(g, es, k) <==> exists i: nat :: i < k && b == Column(g, es, i) && CountAt(g, es, i) > 0
  {
    hide From, To, SpreadAt, CountAt;
    if k > 0 {
      EmittedAreMetColumns(g, es, k - 1, b);
      UnmetColumnIsEmpty(g, es, k - 1);
      if b in Emitted(g, es, k) && b !in Emitted(g, es, k - 1) {
        assert b == Column(g, es, k - 1);
      }
      if i: nat :| i < k && b == Column(g, es, i) && CountAt(g, es, i) > 0 {
        assert i < k - 1 || !Empty(Column(g, es, i));
      }
    }
  }

  // ----- main results, in the conversations' own fields

  ghost predicate Usable(c: Conversation) { c.firstSeen.Some? }

  /** The end of a usable conversation, its start when the end is missing or earlier. */
  ghost function EndOf(c: Conversation): real
    requires Usable(c)
  {
    if c.lastSeen.Some? && c.firstSeen.value <= c.lastSeen.value then c.lastSeen.value else c.firstSeen.value
  }

  /** Packets or octets of the usable conversations. */
  ghost function Carried(cs: seq<Conversation>, m: Measure): int {
    if cs == [] then 0
    else
      var c := cs[|cs| - 1];
      Carried(cs[..|cs| - 1], m) + if !Usable(c) then 0 else if m == Packets then c.packets else c.octets
  }

  lemma {:induction false} EntriesCarry(cs: seq<Conversation>, m: Measure)
    ensures Total(Entries(cs), m) == Carried(cs, m)
  {
    if cs != [] {
      var init, c := cs[..|cs| - 1], cs[|cs| - 1];
      EntriesCarry(init, m);
      if Usable(c) {
        TotalSnoc(Entries(init), ToEntry(c), m);
      } else {
        assert Entries(cs) == Entries(init);
      }
    }
  }

  lemma TotalSnoc(es: seq<Entry>, e: Entry, m: Measure)
    ensures Total(es + [e], m) == Total(es, m) + Amount(e, m)
  {
    assert (es + [e])[..|es|] == es;
  }

  lemma {:induction false} EntriesMembers(cs: seq<Conversation>, e: Entry)
    ensures e in Entries(cs)
      <==> exists c :: c in cs && Usable(c) && e == Entry(c.firstSeen.value, EndOf(c), c.packets, c.octets)
  {
    if cs != [] {
      var init, c := cs[..|cs| - 1], cs[|cs| - 1];
      EntriesMembers(init, e);
      assert cs == init + [c];
      assert forall c' :: c' in cs <==> c' in init || c' == c;
    }
  }

  /** Packets and octets summed over the emitted buckets equal the sums over the usable conversations. */
  lemma TimelineConserves(cs: seq<Conversation>, m: Measure)
    ensures BucketSum(TimelineOf(cs).buckets, m) == Carried(cs, m)
  {
    hide MakeGrid, Entries, InRange, From, To;
    var es := Entries(cs);
    EntriesCarry(cs, m);
    if es != [] {
      var g := MakeGrid(es);
      GridFits(es);
      ColumnsConserve(g, es, m);
      EmittedConserves(g, es, m, g.n);
    }
  }

  lemma Attained(es: seq<Entry>)
    requires es != []
    ensures exists e :: e in es && e.first == Earliest(es)
    ensures exists e :: e in es && e.last == Latest(es)
  {
    var t, t' := Earliest(es), Latest(es);
    assert (exists e :: e in es && e.first == t) && exists e :: e in es && e.last == t';
  }

  /** The window runs from the earliest start to the latest end; there is none exactly without a usable start. */
  lemma TimelineWindow(cs: seq<Conversation>)
    ensures var tl := TimelineOf(cs);
      && (tl.firstSeen.None? <==> tl.lastSeen.None?)
      && (tl.firstSeen.None? <==> forall c | c in cs :: !Usable(c))
      && (tl.firstSeen.None? ==> tl.bucketSeconds == 1 && tl.buckets == [])
      && (tl.firstSeen.Some? ==>
            && (forall c | c in cs && Usable(c) ::
                  tl.firstSeen.value <= c.firstSeen.value && EndOf(c) <= tl.lastSeen.value)
            && (exists c :: c in cs && Usable(c) && c.firstSeen == tl.firstSeen)
            && (exists c :: c in cs && Usable(c) && EndOf(c) == tl.lastSeen.value))
  {
    hide MakeGrid, Entries, Emitted, EndOf;
    var es := Entries(cs);
    forall c | c in cs && Usable(c) ensures Entry(c.firstSeen.value, EndOf(c), c.packets, c.octets) in es {
      EntriesMembers(cs, Entry(c.firstSeen.value, EndOf(c), c.packets, c.octets));
    }
    hide Earliest, Latest;
    if es != [] {
      Attained(es);
      var first :| first in es && first.first == Earliest(es);
      var last :| last in es && last.last == Latest(es);
      EntriesMembers(cs, es[0]);
      EntriesMembers(cs, first);
      EntriesMembers(cs, last);
    }
  }

  lemma CeilCovers(x: real, w: real)
    requires w > 0.0
    ensures var c := Ceil(x / w); x <= c as real * w && (c - 1) as real * w < x
  {
    CeilBounds(x / w);
    DivideBelow(x, w, Ceil(x / w) as real);
    DivideBelow(x, w, (Ceil(x / w) - 1) as real);
  }

  /** The bucket width is the least whole number of seconds, at least one, whose 120-fold covers the window. */
  lemma WidthIsLeast(cs: seq<Conversation>)
    requires TimelineOf(cs).firstSeen.Some?
    ensures var tl := TimelineOf(cs);
      var span, w := tl.lastSeen.value - tl.firstSeen.value, tl.bucketSeconds;
      && w >= 1 && span <= 120.0 * w as real
      && (w == 1 || 120.0 * (w - 1) as real < span)
  {
    hide Entries, Emitted;
    var es := Entries(cs);
    var span := Latest(es) - Earliest(es);
    if span > 0.0 {
      CeilCovers(span, 120.0);
    }
  }

  /** The grid has one bucket for an empty window, and otherwise ends one bucket past the least number of widths
      that covers it. */
  lemma GridEnds(es: seq<Entry>)
    requires es != []
    ensures var g := MakeGrid(es);
      var span, w, before := Latest(es) - Earliest(es), g.width as real, g.n - 1;
      && (span <= 0.0 ==> before == 0)
      && (span > 0.0 ==> (before - 1) as real * w < span <= before as real * w)
  {
    hide MakeGrid, Ceil, Earliest, Latest;
    var span := Latest(es) - Earliest(es);
    BucketsNeeded(es);
    if span > 0.0 {
      CeilCovers(span, MakeGrid(es).width as real);
    }
  }

  lemma BucketsNeeded(es: seq<Entry>)
    requires es != []
    ensures var g, span := MakeGrid(es), Latest(es) - Earliest(es);
      g.n == 1 + if span > 0.0 then Ceil(span / g.width as real) else 0
  {
    hide Ceil, Earliest, Latest;
  }

  /** The usable conversations whose interval meets the half-open span of `w` seconds from `t`. */
  ghost function MeetingSpan(cs: seq<Conversation>, t: real, w: real): set<nat> {
    set k: nat | k < |cs| && Usable(cs[k]) && cs[k].firstSeen.value < t + w && t <= EndOf(cs[k])
  }

  ghost function MeetingEntries(es: seq<Entry>, t: real, w: real): set<nat> {
    set k: nat | k < |es| && es[k].first < t + w && t <= es[k].last
  }

  lemma MeetingSpanSnoc(cs: seq<Conversation>, c: Conversation, t: real, w: real)
    ensures |MeetingSpan(cs + [c], t, w)|
      == |MeetingSpan(cs, t, w)| + if Usable(c) && c.firstSeen.value < t + w && t <= EndOf(c) then 1 else 0
  {
    hide EndOf;
    var before, after := MeetingSpan(cs, t, w), MeetingSpan(cs + [c], t, w);
    assert forall k: nat | k < |cs| :: (cs + [c])[k] == cs[k];
    assert forall k: nat | k != |cs| :: k in after <==> k in before;
    if |cs| in after {
      assert after == before + {|cs|};
    } else {
      assert after == before;
    }
  }

  lemma MeetingEntriesSnoc(es: seq<Entry>, e: Entry, t: real, w: real)
    ensures |MeetingEntries(es + [e], t, w)|
      == |MeetingEntries(es, t, w)| + if e.first < t + w && t <= e.last then 1 else 0
  {
    var before, after := MeetingEntries(es, t, w), MeetingEntries(es + [e], t, w);
    assert forall k: nat | k < |es| :: (es + [e])[k] == es[k];
    assert forall k: nat | k != |es| :: k in after <==> k in before;
    if |es| in after {
      assert after == before + {|es|};
    } else {
      assert after == before;
    }
  }

  lemma {:induction false} EntriesMeeting(cs: seq<Conversation>, t: real, w: real)
    ensures |MeetingSpan(cs, t, w)| == |MeetingEntries(Entries(cs), t, w)|
  {
    if cs == [] {
      assert MeetingSpan(cs, t, w) == {} == MeetingEntries([], t, w);
    } else {
      hide MeetingSpan, MeetingEntries;
      var init, c := cs[..|cs| - 1], cs[|cs| - 1];
      EntriesMeeting(init, t, w);
      MeetingSpanSnoc(init, c, t, w);
      assert init + [c] == cs;
      if Usable(c) {
        MeetingEntriesSnoc(Entries(init), ToEntry(c), t, w);
      } else {
        assert Entries(cs) == Entries(init);
      }
    }
  }

  lemma MeetsIsSpan(g: Grid, e: Entry, i: int)
    ensures g.Meets(e, i) <==> e.first < g.Start(i) + g.width as real && g.Start(i) <= e.last
  {
  }

  lemma CountsMetConversations(g: Grid, cs: seq<Conversation>, i: int)
    requires forall e | e in Entries(cs) :: From(g, e) == g.Index(e.first) && To(g, e) == g.Index(e.last)
    ensures CountAt(g, Entries(cs), i) == |MeetingSpan(cs, g.Start(i), g.width as real)|
  {
    hide From, To, Grid.Start, Grid.Meets, MeetingSpan, CountAt;
    var es, t, w := Entries(cs), g.Start(i), g.width as real;
    CountsMetEntries(g, es, i);
    EntriesMeeting(cs, t, w);
    forall k: nat | k < |es| ensures g.Meets(es[k], i) <==> es[k].first < t + w && t <= es[k].last {
      MeetsIsSpan(g, es[k], i);
    }
    assert (set k: nat | k < |es| && g.Meets(es[k], i)) == MeetingEntries(es, t, w);
  }

  /** A bucket starts a whole number of widths after the window's start, and counts the conversations, at least
      one, whose interval meets the half-open width from there. */
  ghost predicate CountsItsSpan(cs: seq<Conversation>, tl: Timeline, i: nat, b: Bucket)
    requires tl.firstSeen.Some?
  {
    var w := tl.bucketSeconds as real;
    && b.t == tl.firstSeen.value + i as real * w
    && b.conversations == |MeetingSpan(cs, b.t, w)| > 0
  }

  lemma ColumnCountsItsSpan(cs: seq<Conversation>, i: nat)
    requires TimelineOf(cs).firstSeen.Some? && CountAt(MakeGrid(Entries(cs)), Entries(cs), i) > 0
    ensures CountsItsSpan(cs, TimelineOf(cs), i, Column(MakeGrid(Entries(cs)), Entries(cs), i))
  {
    hide From, To, InRange, MakeGrid, Entries, Emitted, CountAt, SpreadAt, MeetingSpan;
    GridFits(Entries(cs));
    GridOrigin(Entries(cs));
    CountsMetConversations(MakeGrid(Entries(cs)), cs, i);
  }

  lemma GridOrigin(es: seq<Entry>)
    requires es != []
    ensures MakeGrid(es).origin == Earliest(es)
  {
  }

  /** There are at most 121 buckets, and each counts exactly the usable conversations that meet its span. */
  lemma TimelineGeometry(cs: seq<Conversation>, b: Bucket)
    ensures |TimelineOf(cs).buckets| <= 121
    ensures b in TimelineOf(cs).buckets ==>
      TimelineOf(cs).firstSeen.Some? && exists i: nat :: i <= 120 && CountsItsSpan(cs, TimelineOf(cs), i, b)
  {
    hide MakeGrid, Entries, From, To, InRange, Emitted, CountAt, Column, CountsItsSpan;
    var es := Entries(cs);
    if es == [] {
      return;
    }
    var g := MakeGrid(es);
    GridFits(es);
    EmittedConserves(g, es, Packets, g.n);
    RangesAreOrdered(g, es);
    EmittedAreMetColumns(g, es, g.n, b);
    if b in TimelineOf(cs).buckets {
      var i: nat :| i < g.n && b == Column(g, es, i) && CountAt(g, es, i) > 0;
      ColumnCountsItsSpan(cs, i);
    }
  }

  /** Conversely, every conversation is counted: each span that it meets has a bucket. */
  lemma MetSpansHaveBuckets(cs: seq<Conversation>, k: nat, i: nat)
    requires k < |cs| && Usable(cs[k]) && TimelineOf(cs).firstSeen.Some?
    requires var tl := TimelineOf(cs);
      k in MeetingSpan(cs, tl.firstSeen.value + i as real * tl.bucketSeconds as real, tl.bucketSeconds as real)
    ensures exists b :: b in TimelineOf(cs).buckets && CountsItsSpan(cs, TimelineOf(cs), i, b)
  {
    var es := Entries(cs);
    var g := MakeGrid(es);
    var e := Entry(cs[k].firstSeen.value, EndOf(cs[k]), cs[k].packets, cs[k].octets);
    EntriesMembers(cs, e);
    ConversationMeets(cs, k, i);
    hide MakeGrid, Entries, From, To, InRange, Emitted, CountAt, EndOf, Column, CountsItsSpan, Grid.Start, Grid.Index,
      Grid.Meets, MeetingSpan;
    GridFits(es);
    RangesAreOrdered(g, es);
    SpreadOverMet(g, e, i);
    InsideGrid(g, e);
    CountsMetConversations(g, cs, i);
    Inhabited(MeetingSpan(cs, g.Start(i), g.width as real), k);
    ColumnCountsItsSpan(cs, i);
    EmittedAreMetColumns(g, es, g.n, Column(g, es, i));
  }

  lemma Inhabited(s: set<nat>, k: nat)
    requires k in s
    ensures |s| > 0
  {
  }

  lemma ConversationMeets(cs: seq<Conversation>, k: nat, i: nat)
    requires k < |cs| && Usable(cs[k]) && TimelineOf(cs).firstSeen.Some?
    requires var tl := TimelineOf(cs);
      k in MeetingSpan(cs, tl.firstSeen.value + i as real * tl.bucketSeconds as real, tl.bucketSeconds as real)
    ensures var g := MakeGrid(Entries(cs));
      && k in MeetingSpan(cs, g.Start(i), g.width as real)
      && g.Meets(Entry(cs[k].firstSeen.value, EndOf(cs[k]), cs[k].packets, cs[k].octets), i)
  {
    hide Entries, Emitted, EndOf, Earliest, Latest, Ceil;
    var g := MakeGrid(Entries(cs));
    GridOrigin(Entries(cs));
    MeetsIsSpan(g, Entry(cs[k].firstSeen.value, EndOf(cs[k]), cs[k].packets, cs[k].octets), i);
  }

  lemma InsideGrid(g: Grid, e: Entry)
    requires InRange(g, e) && To(g, e) == g.Index(e.last)
    ensures g.Index(e.last) < g.n
  {
  }

  lemma RangesAreOrdered(g: Grid, es: seq<Entry>)
    requires forall e | e in es :: InRange(g, e)
    ensures forall e | e in es :: From(g, e) <= To(g, e)
  {
  }
}
