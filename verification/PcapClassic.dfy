/** Classic pcap: the file format as a serialiser (sections 4 and 5 of draft-ietf-opsawg-pcap),
    the header reader, and what the reader recovers. */
module PcapClassic {
  import opened Wrappers
  import opened Bytes

  datatype CaptureError =
    | TooShort
    | Truncated
    | BadMagic(magic: nat)
    | AbsurdLength(length: nat)
    | IndexOutOfRange

  datatype Format = Pcap | PcapNg

  /** Timestamps are exact seconds. `linkType == None` is the label "Unknown". */
  datatype Summary = Summary(
    packetCount: nat, start: Option<real>, end: Option<real>,
    linkType: Option<nat>, snaplen: nat, format: Format)
  {
    function Duration(): real {
      if start.Some? && end.Some? then end.value - start.value else 0.0
    }
  }

  datatype Stamps = Stamps(count: nat, first: Option<real>, last: Option<real>) {
    function See(ts: real): Stamps {
      Stamps(count + 1, Some(first.GetOr(ts)), Some(ts))
    }
  }

  const NO_PACKETS := Stamps(0, None, None)

  // ----- the format

  datatype Header = Header(vmajor: nat, vminor: nat, thiszone: nat, sigfigs: nat, snaplen: nat, network: nat) {
    predicate Valid() {
      && vmajor < 0x1_0000 && vminor < 0x1_0000
      && thiszone < 0x1_0000_0000 && sigfigs < 0x1_0000_0000
      && snaplen < 0x1_0000_0000 && network < 0x1_0000_0000
    }
  }

  datatype Record = Record(sec: nat, subsec: nat, origLen: nat, payload: bytes) {
    predicate Valid() {
      sec < 0x1_0000_0000 && subsec < 0x1_0000_0000 && origLen < 0x1_0000_0000 && |payload| < 0x1_0000_0000
    }
    function Time(nanos: bool): real {
      sec as real + subsec as real / if nanos then 1_000_000_000.0 else 1_000_000.0
    }
    /** Within four times the snap length and a megabyte, or within 16 megabytes. */
    predicate Plausible(snaplen: nat) { |payload| <= 4 * snaplen + 1_048_576 || |payload| <= 16_777_216 }
  }

  function Divisor(nanos: bool): (d: real)
    ensures d > 0.0
  {
    if nanos then 1_000_000_000.0 else 1_000_000.0
  }

  function Magic(nanos: bool): nat { if nanos then 0xA1B2_3C4D else 0xA1B2_C3D4 }

  function SerialiseHeader(h: Header, e: Endian, nanos: bool): (b: bytes)
    requires h.Valid()
    ensures |b| == 24
  {
    Encode32(e, Magic(nanos)) + Encode16(e, h.vmajor) + Encode16(e, h.vminor) + Encode32(e, h.thiszone)
    + Encode32(e, h.sigfigs) + Encode32(e, h.snaplen) + Encode32(e, h.network)
  }

  function RecordHeader(r: Record, e: Endian): (b: bytes)
    requires r.Valid()
    ensures |b| == 16
  {
    Encode32(e, r.sec) + Encode32(e, r.subsec) + Encode32(e, |r.payload|) + Encode32(e, r.origLen)
  }

  ghost predicate ValidRecords(rs: seq<Record>) { forall r | r in rs :: r.Valid() }

  function SerialiseRecords(rs: seq<Record>, e: Endian): bytes
    requires ValidRecords(rs)
  {
    if rs == [] then [] else RecordHeader(rs[0], e) + rs[0].payload + SerialiseRecords(rs[1..], e)
  }

  // ----- the reader

  predicate Absurd(snaplen: nat, length: nat) {
    length > snaplen * 4 + 0x10_0000 && length > 0x100_0000
  }

  /** Byte order and resolution, from the first four bytes read as a little-endian word. */
  function Dialect(magic: nat): Option<(Endian, bool)> {
    if magic == 0xA1B2_C3D4 then Some((Little, false))
    else if magic == 0xD4C3_B2A1 then Some((Big, false))
    else if magic == 0xA1B2_3C4D then Some((Little, true))
    else if magic == 0x4D3C_B2A1 then Some((Big, true))
    else None
  }

  function ReadRecords(rest: bytes, e: Endian, nanos: bool, snaplen: nat, st: Stamps): Result<Stamps, CaptureError>
    decreases |rest|
  {
    if |rest| < 16 then Ok(st)
    else
      var length := Decode32(e, rest[8..12]);
      var ts := Decode32(e, rest[..4]) as real + Decode32(e, rest[4..8]) as real / Divisor(nanos);
      if Absurd(snaplen, length) then Err(AbsurdLength(length))
      else ReadRecords(Drop(rest[16..], length), e, nanos, snaplen, st.See(ts))
  }

  function ReadPcapBytes(data: bytes): Result<Summary, CaptureError> {
    if |data| < 24 then Err(Truncated)
    else
      var magic := Decode32(Little, data[..4]);
      match Dialect(magic)
      case None => Err(BadMagic(magic))
      case Some((e, nanos)) =>
        var snaplen, network := Decode32(e, data[16..20]), Decode32(e, data[20..24]);
        match ReadRecords(data[24..], e, nanos, snaplen, NO_PACKETS)
        case Err(err) => Err(err)
        case Ok(st) => Ok(Summary(st.count, st.first, st.last, Some(network), snaplen, Pcap))
  }

  method ReadPcap(f: ByteFile) returns (r: Result<Summary, CaptureError>)
    modifies f
    ensures r == ReadPcapBytes(old(f.Rest()))
  {
    hide Decode32, Dialect;
    ghost var data := f.Rest();
    var header := f.Read(24);
    if |header| < 24 {
      return Err(Truncated);
    }
    assert header == data[..24] && header[..4] == data[..4];
    var magic := Decode32(Little, header[..4]);
    var dialect := Dialect(magic);
    if dialect.None? {
      return Err(BadMagic(magic));
    }
    var (e, nanos) := dialect.value;
    assert header[16..20] == data[16..20] && header[20..24] == data[20..24];
    var snaplen, network := Decode32(e, header[16..20]), Decode32(e, header[20..24]);
    var st := NO_PACKETS;
    while true
      invariant ReadRecords(f.Rest(), e, nanos, snaplen, st) == ReadRecords(data[24..], e, nanos, snaplen, NO_PACKETS)
      decreases |f.Rest()|
    {
      ghost var rest := f.Rest();
      var header := f.Read(16);
      if |header| < 16 {
        break;
      }
      assert header[..4] == rest[..4] && header[4..8] == rest[4..8] && header[8..12] == rest[8..12];
      var length := Decode32(e, header[8..12]);
      if Absurd(snaplen, length) {
        return Err(AbsurdLength(length));
      }
      st := st.See(Decode32(e, header[..4]) as real + Decode32(e, header[4..8]) as real / Divisor(nanos));
      f.Skip(length);
    }
    r := Ok(Summary(st.count, st.first, st.last, Some(network), snaplen, Pcap));
  }

  // ----- the reader inverts the serialiser

  /** What a capture says about itself. */
  function See(st: Stamps, rs: seq<Record>, nanos: bool): Stamps
    decreases |rs|
  {
    if rs == [] then st else See(st.See(rs[0].Time(nanos)), rs[1..], nanos)
  }

  lemma {:induction false} SeeAll(st: Stamps, rs: seq<Record>, nanos: bool)
    requires rs != []
    decreases |rs|
    ensures See(st, rs, nanos)
      == Stamps(st.count + |rs|, Some(st.first.GetOr(rs[0].Time(nanos))), Some(rs[|rs| - 1].Time(nanos)))
  {
    if |rs| > 1 {
      SeeAll(st.See(rs[0].Time(nanos)), rs[1..], nanos);
    }
  }

  lemma SeeNothing(st: Stamps, nanos: bool)
    ensures See(st, [], nanos) == st
  {
  }

  lemma RecordHeaderDecodes(r: Record, e: Endian, tail: bytes)
    requires r.Valid()
    ensures var b := RecordHeader(r, e) + tail;
      && Decode32(e, b[..4]) == r.sec && Decode32(e, b[4..8]) == r.subsec
      && Decode32(e, b[8..12]) == |r.payload| && b[16..] == tail
  {
    var b := RecordHeader(r, e) + tail;
    assert b[..4] == Encode32(e, r.sec) && b[4..8] == Encode32(e, r.subsec) && b[8..12] == Encode32(e, |r.payload|);
  }

  /** Reading one record header moves past the payload it announces, or stops there. */
  lemma ReadOneRecord(r: Record, e: Endian, nanos: bool, rest: bytes, snaplen: nat, st: Stamps)
    requires r.Valid()
    ensures ReadRecords(RecordHeader(r, e) + rest, e, nanos, snaplen, st)
      == if !r.Plausible(snaplen) then Err(AbsurdLength(|r.payload|))
         else ReadRecords(Drop(rest, |r.payload|), e, nanos, snaplen, st.See(r.Time(nanos)))
  {
    hide RecordHeader, Decode32;
    RecordHeaderDecodes(r, e, rest);
  }

  lemma {:induction false} ReadSerialisedRecords(rs: seq<Record>, e: Endian, nanos: bool, snaplen: nat, st: Stamps)
    requires ValidRecords(rs)
    ensures var r := ReadRecords(SerialiseRecords(rs, e), e, nanos, snaplen, st);
      && (r.Ok? <==> forall i | 0 <= i < |rs| :: rs[i].Plausible(snaplen))
      && (r.Ok? ==> r.value == See(st, rs, nanos))
  {
    hide RecordHeader;
    if rs != [] {
      var payload, tail := rs[0].payload, SerialiseRecords(rs[1..], e);
      assert RecordHeader(rs[0], e) + payload + tail == RecordHeader(rs[0], e) + (payload + tail);
      assert Drop(payload + tail, |payload|) == tail;
      ReadOneRecord(rs[0], e, nanos, payload + tail, snaplen, st);
      if rs[0].Plausible(snaplen) {
        ReadSerialisedRecords(rs[1..], e, nanos, snaplen, st.See(rs[0].Time(nanos)));
        if exists i | 0 <= i < |rs| :: !rs[i].Plausible(snaplen) {
          var i :| 0 <= i < |rs| && !rs[i].Plausible(snaplen);
          assert rs[1..][i - 1] == rs[i];
        }
      }
    }
  }

  lemma HeaderDecodes(h: Header, e: Endian, nanos: bool, tail: bytes)
    requires h.Valid()
    ensures var b := SerialiseHeader(h, e, nanos) + tail;
      && Dialect(Decode32(Little, b[..4])) == Some((e, nanos))
      && Decode32(e, b[16..20]) == h.snaplen && Decode32(e, b[20..24]) == h.network && b[24..] == tail
      && Decode32(Big, b[..4]) != 0x0A0D_0D0A
  {
    hide Decode32, Dialect, Encode32, Encode16, Magic;
    var b := SerialiseHeader(h, e, nanos) + tail;
    assert b[..4] == Encode32(e, Magic(nanos));
    assert b[16..20] == Encode32(e, h.snaplen) && b[20..24] == Encode32(e, h.network);
    MagicIsRecognised(e, nanos);
  }

  lemma MagicIsRecognised(e: Endian, nanos: bool)
    ensures Dialect(Decode32(Little, Encode32(e, Magic(nanos)))) == Some((e, nanos))
    ensures Decode32(Big, Encode32(e, Magic(nanos))) != 0x0A0D_0D0A
  {
    hide Encode32, Decode32;
    MagicBytes(e, nanos);
    if nanos {
      Decode32Digits(Little, 0xA1, 0xB2, 0x3C, 0x4D);
      Decode32Digits(Big, 0xA1, 0xB2, 0x3C, 0x4D);
      Decode32Digits(Little, 0x4D, 0x3C, 0xB2, 0xA1);
      Decode32Digits(Big, 0x4D, 0x3C, 0xB2, 0xA1);
    } else {
      Decode32Digits(Little, 0xA1, 0xB2, 0xC3, 0xD4);
      Decode32Digits(Big, 0xA1, 0xB2, 0xC3, 0xD4);
      Decode32Digits(Little, 0xD4, 0xC3, 0xB2, 0xA1);
      Decode32Digits(Big, 0xD4, 0xC3, 0xB2, 0xA1);
    }
  }

  lemma MagicBytes(e: Endian, nanos: bool)
    ensures Encode32(e, Magic(nanos))
      == if e == Little then (if nanos then [0x4D, 0x3C, 0xB2, 0xA1] else [0xD4, 0xC3, 0xB2, 0xA1])
         else (if nanos then [0xA1, 0xB2, 0x3C, 0x4D] else [0xA1, 0xB2, 0xC3, 0xD4])
  {
    hide Encode32;
    if nanos {
      Encode32Digits(e, 0xA1, 0xB2, 0x3C, 0x4D, 0xA1B2_3C4D);
    } else {
      Encode32Digits(e, 0xA1, 0xB2, 0xC3, 0xD4, 0xA1B2_C3D4);
    }
  }

  /** For every logical capture, byte order and resolution: the reader accepts exactly when no record
      claims an absurd payload, and then recovers packet count, first and last time, link type and
      snaplen. In particular the two byte orders read the same. */
  lemma ClassicRoundTrip(h: Header, rs: seq<Record>, e: Endian, nanos: bool)
    requires h.Valid() && ValidRecords(rs)
    ensures var r := ReadPcapBytes(SerialiseHeader(h, e, nanos) + SerialiseRecords(rs, e));
      var start := if rs == [] then None else Some(rs[0].Time(nanos));
      var end := if rs == [] then None else Some(rs[|rs| - 1].Time(nanos));
      && (r.Ok? <==> forall i | 0 <= i < |rs| :: rs[i].Plausible(h.snaplen))
      && (r.Ok? ==> r.value == Summary(|rs|, start, end, Some(h.network), h.snaplen, Pcap))
      && (r.Ok? ==> r.value.Duration() == if rs == [] then 0.0 else end.value - start.value)
  {
    hide SerialiseHeader, SerialiseRecords, ReadRecords, Decode32, Dialect, See;
    HeaderDecodes(h, e, nanos, SerialiseRecords(rs, e));
    ReadSerialisedRecords(rs, e, nanos, h.snaplen, NO_PACKETS);
    if rs != [] {
      SeeAll(NO_PACKETS, rs, nanos);
    } else {
      SeeNothing(NO_PACKETS, nanos);
    }
  }

  // ----- what is refused before any record

  /** The four magic numbers as they stand in the file. */
  ghost predicate KnownMagic(first: bytes) {
    first in {[0xA1, 0xB2, 0xC3, 0xD4], [0xD4, 0xC3, 0xB2, 0xA1], [0xA1, 0xB2, 0x3C, 0x4D], [0x4D, 0x3C, 0xB2, 0xA1]}
  }

  lemma DialectIsKnown(first: bytes)
    requires |first| == 4
    ensures Dialect(Decode32(Little, first)).Some? <==> KnownMagic(first)
  {
    Decode32Digits(Little, first[0], first[1], first[2], first[3]);
    assert first == [first[0], first[1], first[2], first[3]];
    hide Decode32;
  }

  /** For every byte string: it is refused as truncated exactly below 24 bytes, and for its magic number exactly when
      it starts with none of the four; a header alone is an empty capture. */
  lemma RefusedExactly(data: bytes)
    ensures ReadPcapBytes(data) == Err(Truncated) <==> |data| < 24
    ensures var r := ReadPcapBytes(data); r.Ok? || r.error.Truncated? || r.error.BadMagic? || r.error.AbsurdLength?
    ensures |data| >= 24 ==>
      (ReadPcapBytes(data).Err? && ReadPcapBytes(data).error.BadMagic? <==> !KnownMagic(data[..4]))
  {
    hide Decode32, Dialect, KnownMagic;
    if |data| >= 24 {
      DialectIsKnown(data[..4]);
      var dialect := Dialect(Decode32(Little, data[..4]));
      if dialect.Some? {
        var (e, nanos) := dialect.value;
        RecordsOnlyAbsurd(data[24..], e, nanos, Decode32(e, data[16..20]), NO_PACKETS);
      }
    }
  }

  lemma {:induction false} RecordsOnlyAbsurd(rest: bytes, e: Endian, nanos: bool, snaplen: nat, st: Stamps)
    ensures var r := ReadRecords(rest, e, nanos, snaplen, st); r.Ok? || r.error.AbsurdLength?
    decreases |rest|
  {
    hide Decode32;
    if |rest| >= 16 && !Absurd(snaplen, Decode32(e, rest[8..12])) {
      var ts := Decode32(e, rest[..4]) as real + Decode32(e, rest[4..8]) as real / Divisor(nanos);
      RecordsOnlyAbsurd(Drop(rest[16..], Decode32(e, rest[8..12])), e, nanos, snaplen, st.See(ts));
    }
  }

  // ----- truncated files

  /** How many records have their whole header within the first `n` bytes. */
  function HeadersWithin(rs: seq<Record>, n: nat): (k: nat)
    ensures k <= |rs|
  {
    if rs == [] || n < 16 then 0
    else 1 + HeadersWithin(rs[1..], if n < 16 + |rs[0].payload| then 0 else n - 16 - |rs[0].payload|)
  }

  lemma CutRecord(header: bytes, payload: bytes, tail: bytes, n: nat)
    requires |header| == 16 <= n
    ensures var cut := Take(payload + tail, n - 16);
      && Take(header + payload + tail, n) == header + cut
      && Drop(cut, |payload|) == Take(tail, if n < 16 + |payload| then 0 else n - 16 - |payload|)
  {
    assert header + payload + tail == header + (payload + tail);
  }

  lemma NoneImplausible(rs: seq<Record>, snaplen: nat, k: nat)
    requires 0 < k <= |rs| && rs[0].Plausible(snaplen)
    ensures (forall i | 0 <= i < k :: rs[i].Plausible(snaplen))
      <==> forall i | 0 <= i < k - 1 :: rs[1..][i].Plausible(snaplen)
  {
    hide Record.Plausible;
    assert forall i | 0 < i < k :: rs[i] == rs[1..][i - 1];
    assert forall i | 0 <= i < k - 1 :: rs[1..][i] == rs[i + 1];
  }

  /** A file cut anywhere after its global header is read as the records whose header survived; it is refused
      exactly when one of those claims an absurd payload, whatever lies behind the cut. */
  lemma {:induction false} TruncatedRecords(rs: seq<Record>, e: Endian, nanos: bool, snaplen: nat, st: Stamps, n: nat)
    requires ValidRecords(rs)
    ensures var r, k := ReadRecords(Take(SerialiseRecords(rs, e), n), e, nanos, snaplen, st), HeadersWithin(rs, n);
      && (r.Ok? <==> forall i | 0 <= i < k :: rs[i].Plausible(snaplen))
      && (r.Ok? ==> r.value == See(st, rs[..k], nanos))
  {
    hide RecordHeader, Decode32, Record.Plausible, Take, Drop;
    if rs == [] || n < 16 {
      TakeLength(SerialiseRecords(rs, e), n);
    } else {
      var r, tail := rs[0], SerialiseRecords(rs[1..], e);
      var left := if n < 16 + |r.payload| then 0 else n - 16 - |r.payload|;
      CutRecord(RecordHeader(r, e), r.payload, tail, n);
      ReadOneRecord(r, e, nanos, Take(r.payload + tail, n - 16), snaplen, st);
      var k := HeadersWithin(rs, n);
      if r.Plausible(snaplen) {
        TruncatedRecords(rs[1..], e, nanos, snaplen, st.See(r.Time(nanos)), left);
        assert rs[..k][0] == r && rs[..k][1..] == rs[1..][..k - 1];
        NoneImplausible(rs, snaplen, k);
      }
    }
  }
}
