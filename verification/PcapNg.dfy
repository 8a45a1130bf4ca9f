/** Single-section pcapng: the format as a serialiser (sections 3.1 and 4.1 to 4.4 of
    draft-ietf-opsawg-pcapng), the block walker, and what the walker recovers. */
module PcapNg {
  import opened Wrappers
  import opened Bytes
  import opened PcapClassic

  const SHB: nat := 0x0A0D_0D0A
  const IDB: nat := 1
  const PB: nat := 2
  const SPB: nat := 3
  const EPB: nat := 6
  const BYTE_ORDER_MAGIC: nat := 0x1A2B_3C4D
  const SWAPPED_MAGIC: nat := 0x4D3C_2B1A
  const OPTION_SCAN_CAP: nat := 4096
  const IF_TSRESOL: nat := 9
  const MICROSECONDS: Ticks := 1_000_000

  // ----- the format

  datatype Opt = Opt(code: nat, value: bytes) {
    predicate Valid() { 0 < code < 0x1_0000 && |value| < 0x1_0000 }
    predicate SetsResolution() { code == 9 && |value| >= 1 }
    function Size(): nat { 4 + Aligned(|value|) }
  }

  datatype Block =
    | Interface(linkType: nat, snaplen: nat, options: seq<Opt>, terminated: bool)
    | Enhanced(ifId: nat, ticks: nat, origLen: nat, payload: bytes, trailer: bytes)
    | Simple(origLen: nat, payload: bytes)
    | Obsolete(content: bytes)          // a Packet Block
    | Stub(kind: nat, content: bytes)   // an interface or packet too short for its fixed fields
    | Other(kind: nat, content: bytes)  // any type the reader does not know
  {
    ghost predicate Valid(e: Endian) {
      && match this {
        case Interface(link, snaplen, options, _) =>
          link < 0x1_0000 && snaplen < 0x1_0000_0000 && forall o | o in options :: o.Valid()
        case Enhanced(ifId, ticks, orig, payload, trailer) =>
          && ifId < 0x1_0000_0000 && ticks < 0x1_0000_0000_0000_0000 && orig < 0x1_0000_0000
          && |payload| < 0x1_0000_0000 && |trailer| % 4 == 0
        case Simple(orig, _) => orig < 0x1_0000_0000
        case Obsolete(_) => true
        case Stub(kind, content) =>
          |content| % 4 == 0 && ((kind == 1 && |content| < 8) || (kind == 6 && |content| < 20))
        case Other(kind, _) => kind < 0x1_0000_0000 && kind !in {1, 2, 3, 6}
      }
    }
    function Kind(): nat {
      match this
      case Interface(_, _, _, _) => 1
      case Enhanced(_, _, _, _, _) => 6
      case Simple(_, _) => 3
      case Obsolete(_) => 2
      case Stub(kind, _) => kind
      case Other(kind, _) => kind
    }
  }

  function Aligned(n: nat): (m: nat)
    ensures n <= m < n + 4 && m % 4 == 0
  {
    (n + 3) / 4 * 4
  }

  function Pad(b: bytes): (p: bytes)
    ensures |p| == Aligned(|b|) && p[..|b|] == b
  {
    b + seq(Aligned(|b|) - |b|, _ => 0)
  }

  function SerialiseOption(o: Opt, e: Endian): (b: bytes)
    requires o.Valid()
    ensures |b| == o.Size()
  {
    Encode16(e, o.code) + Encode16(e, |o.value|) + Pad(o.value)
  }

  function SerialiseOptions(os: seq<Opt>, terminated: bool, e: Endian): bytes
    requires forall o | o in os :: o.Valid()
  {
    if os == [] then (if terminated then [0, 0, 0, 0] else [])
    else SerialiseOption(os[0], e) + SerialiseOptions(os[1..], terminated, e)
  }

  function EnhancedHeader(b: Block, e: Endian): (h: bytes)
    requires b.Enhanced? && b.Valid(e)
    ensures |h| == 20
  {
    Encode32(e, b.ifId) + Encode32(e, b.ticks / 0x1_0000_0000) + Encode32(e, b.ticks % 0x1_0000_0000)
    + Encode32(e, |b.payload|) + Encode32(e, b.origLen)
  }

  function InterfaceHeader(b: Block, e: Endian): (h: bytes)
    requires b.Interface? && b.Valid(e)
    ensures |h| == 8
  {
    Encode16(e, b.linkType) + [0, 0] + Encode32(e, b.snaplen)
  }

  function Body(b: Block, e: Endian): bytes
    requires b.Valid(e)
  {
    match b
    case Interface(_, _, options, terminated) => InterfaceHeader(b, e) + SerialiseOptions(options, terminated, e)
    case Enhanced(_, _, _, payload, trailer) => EnhancedHeader(b, e) + (Pad(payload) + trailer)
    case Simple(orig, payload) => Encode32(e, orig) + Pad(payload)
    case Obsolete(content) => Pad(content)
    case Stub(_, content) => content
    case Other(_, content) => Pad(content)
  }

  lemma SizeIsAligned(o: Opt)
    ensures o.Size() % 4 == 0
  {
    hide Aligned;
    MultiplesAdd(4, Aligned(|o.value|));
  }

  lemma MultiplesAdd(x: nat, y: nat)
    requires x % 4 == 0 && y % 4 == 0
    ensures (x + y) % 4 == 0
  {
  }

  lemma {:induction false} OptionsAreAligned(os: seq<Opt>, terminated: bool, e: Endian)
    requires forall o | o in os :: o.Valid()
    ensures |SerialiseOptions(os, terminated, e)| % 4 == 0
  {
    hide SerialiseOption, Opt.Size;
    if os != [] {
      OptionsAreAligned(os[1..], terminated, e);
      SizeIsAligned(os[0]);
      MultiplesAdd(os[0].Size(), |SerialiseOptions(os[1..], terminated, e)|);
    }
  }

  lemma BodyIsAligned(b: Block, e: Endian)
    requires b.Valid(e)
    ensures |Body(b, e)| % 4 == 0
  {
    hide SerialiseOptions, InterfaceHeader, EnhancedHeader, Encode32, Pad, Aligned;
    if b.Interface? {
      OptionsAreAligned(b.options, b.terminated, e);
    }
  }

  /** A valid block that fits the 32-bit length field. */
  ghost predicate Fits(b: Block, e: Endian) {
    b.Valid(e) && |Body(b, e)| + 12 < 0x1_0000_0000
  }

  function SerialiseBlock(b: Block, e: Endian): bytes
    requires Fits(b, e)
  {
    var length := Encode32(e, |Body(b, e)| + 12);
    Encode32(e, b.Kind()) + length + Body(b, e) + length
  }

  function SerialiseBlocks(bs: seq<Block>, e: Endian): bytes
    requires forall b | b in bs :: Fits(b, e)
  {
    if bs == [] then [] else SerialiseBlock(bs[0], e) + SerialiseBlocks(bs[1..], e)
  }

  /** `rest` is the section header after its byte-order magic: version, section length, options. */
  function SerialiseSection(rest: bytes, bs: seq<Block>, e: Endian): bytes
    requires |rest| % 4 == 0 && |rest| + 16 < 0x1_0000_0000
    requires forall b | b in bs :: Fits(b, e)
  {
    var length := Encode32(e, |rest| + 16);
    Encode32(e, 0x0A0D_0D0A) + length + Encode32(e, 0x1A2B_3C4D) + rest + length + SerialiseBlocks(bs, e)
  }

  // ----- the reader

  /** Timestamp units per second. */
  type Ticks = n: nat | n > 0 witness 1

  function Pow(base: nat, n: nat): (p: nat)
    requires base > 0
    ensures p > 0
  {
    if n == 0 then 1 else base * Pow(base, n - 1)
  }

  /** Ticks per second: a power of two when the top bit is set, of ten otherwise. */
  function Resolution(b: byte): Ticks {
    if b >= 0x80 then Pow(2, b - 0x80) else Pow(10, b)
  }

  datatype Walk = Walk(resolutions: seq<Ticks>, linkTypes: seq<nat>, snaplenMax: nat, stamps: Stamps)

  const START := Walk([], [], 0, NO_PACKETS)

  /** The option loop. A resolution option whose value byte lies beyond the bytes read raises. */
  function ScanOptions(rest: bytes, e: Endian, ticks: Ticks): Result<Ticks, CaptureError>
    decreases |rest|
  {
    if |rest| < 4 then Ok(ticks)
    else
      var code, length := Decode16(e, rest[..2]), Decode16(e, rest[2..4]);
      if code == 0 then Ok(ticks)
      else if code == IF_TSRESOL && length >= 1 && |rest| == 4 then Err(IndexOutOfRange)
      else ScanOptions(Drop(rest, 4 + Aligned(length)), e,
                       if code == IF_TSRESOL && length >= 1 then Resolution(rest[4]) else ticks)
  }

  /** The resolution of the interface a packet names; microseconds for one never described. */
  function TicksOf(resolutions: seq<Ticks>, ifId: nat): Ticks {
    if ifId < |resolutions| then resolutions[ifId] else MICROSECONDS
  }

  function TimeOf(hi: nat, lo: nat, ticks: Ticks): real {
    (hi * 0x1_0000_0000 + lo) as real / ticks as real
  }

  function ReadLength(kind: nat, bodyLen: nat): (n: nat)
    ensures n <= bodyLen
  {
    var cap := if kind == IDB then OPTION_SCAN_CAP else if kind == EPB then 20 else if kind == PB then 12 else 0;
    if bodyLen < cap then bodyLen else cap
  }

  function AbsorbInterface(w: Walk, body: bytes, e: Endian): Result<Walk, CaptureError> {
    if |body| < 8 then Ok(w)
    else
      var snaplen := Decode32(e, body[4..8]);
      match ScanOptions(body[8..], e, MICROSECONDS)
      case Err(err) => Err(err)
      case Ok(ticks) =>
        Ok(Walk(w.resolutions + [ticks], w.linkTypes + [Decode16(e, body[..2])],
                if snaplen > w.snaplenMax then snaplen else w.snaplenMax, w.stamps))
  }

  /** One block, from the bytes of its body that were read. A Packet Block would need 20 of them
      and only 12 are ever read. */
  function Absorb(w: Walk, kind: nat, body: bytes, e: Endian): Result<Walk, CaptureError> {
    if kind == IDB then AbsorbInterface(w, body, e)
    else if kind == EPB && |body| >= 20 then
      var ticks := TicksOf(w.resolutions, Decode32(e, body[..4]));
      Ok(w.(stamps := w.stamps.See(TimeOf(Decode32(e, body[4..8]), Decode32(e, body[8..12]), ticks))))
    else if kind == PB && |body| >= 20 then
      Ok(w.(stamps := w.stamps.See(TimeOf(Decode32(e, body[4..8]), Decode32(e, body[8..12]), MICROSECONDS))))
    else if kind == SPB then Ok(w.(stamps := w.stamps.(count := w.stamps.count + 1)))
    else Ok(w)
  }

  /** A block length the reader does not trust ends the walk. */
  predicate Sane(blockLen: nat) { blockLen >= 12 && blockLen % 4 == 0 }

  /** The next block, as far as it is read; `End` at the end of the file, at a truncated block, and
      where the block length cannot be trusted. */
  datatype Frame = End | Frame(kind: nat, body: bytes, after: bytes)

  function NextFrame(rest: bytes, e: Endian): (f: Frame)
    ensures f.Frame? ==> |f.after| < |rest|
  {
    if |rest| < 8 then End
    else
      var kind, blockLen := Decode32(e, rest[..4]), Decode32(e, rest[4..8]);
      if !Sane(blockLen) then End
      else
        var readLen := ReadLength(kind, blockLen - 12);
        var body := Take(rest[8..], readLen);
        var after := Drop(rest[8..], blockLen - 12);
        if |body| < readLen || |after| < 4 then End else Frame(kind, body, after[4..])
  }

  function ReadBlocks(rest: bytes, e: Endian, w: Walk): Result<Walk, CaptureError>
    decreases |rest|
  {
    match NextFrame(rest, e)
    case End => Ok(w)
    case Frame(kind, body, after) =>
      match Absorb(w, kind, body, e)
      case Err(err) => Err(err)
      case Ok(w') => ReadBlocks(after, e, w')
  }

  function SectionOrder(magic: nat): Option<Endian> {
    if magic == BYTE_ORDER_MAGIC then Some(Little) else if magic == SWAPPED_MAGIC then Some(Big) else None
  }

  function Summarise(w: Walk): Summary {
    Summary(w.stamps.count, w.stamps.first, w.stamps.last,
            if w.linkTypes == [] then None else Some(w.linkTypes[0]), w.snaplenMax, PcapNg)
  }

  /** Byte order and length of the section header block, from its first twelve bytes. */
  function SectionHeader(raw: bytes): Result<(Endian, nat), CaptureError>
    requires |raw| == 12
  {
    var kind, magic := Decode32(Little, raw[..4]), Decode32(Little, raw[8..]);
    if kind != SHB then Err(BadMagic(kind))
    else match SectionOrder(magic)
      case None => Err(BadMagic(magic))
      case Some(e) => Ok((e, Decode32(e, raw[4..8])))
  }

  function ReadPcapngBytes(data: bytes): Result<Summary, CaptureError> {
    if |data| < 12 then Err(Truncated)
    else match SectionHeader(data[..12])
      case Err(err) => Err(err)
      case Ok((e, length)) =>
        match ReadBlocks(Drop(data, length), e, START)
        case Err(err) => Err(err)
        case Ok(w) => Ok(Summarise(w))
  }

  /** The entry point: the first four bytes choose the format. */
  function ReadCaptureBytes(data: bytes): Result<Summary, CaptureError> {
    if |data| < 4 then Err(TooShort)
    else if Decode32(Big, data[..4]) == SHB then ReadPcapngBytes(data)
    else ReadPcapBytes(data)
  }

  // ----- the same as loops over a file cursor

  method ScanOptionsLoop(options: bytes, e: Endian) returns (r: Result<Ticks, CaptureError>)
    ensures r == ScanOptions(options, e, MICROSECONDS)
  {
    hide Decode16, Resolution, Aligned, Drop;
    var ticks, pos := MICROSECONDS, 0;
    DropWithin(options, 0);
    while pos + 4 <= |options|
      invariant ScanOptions(Drop(options, pos), e, ticks) == ScanOptions(options, e, MICROSECONDS)
      decreases |options| - pos
    {
      DropWithin(options, pos);
      var rest := options[pos..];
      var code, length := Decode16(e, rest[..2]), Decode16(e, rest[2..4]);
      if code == 0 {
        break;
      }
      if code == IF_TSRESOL && length >= 1 {
        if |rest| == 4 {
          return Err(IndexOutOfRange);
        }
        ticks := Resolution(rest[4]);
      }
      DropDrop(options, pos, 4 + Aligned(length));
      pos := pos + 4 + Aligned(length);
    }
    DropLength(options, pos);
    r := Ok(ticks);
  }

  method AbsorbBlock(w: Walk, kind: nat, body: bytes, e: Endian) returns (r: Result<Walk, CaptureError>)
    ensures r == Absorb(w, kind, body, e)
  {
    hide Decode16, Decode32, ScanOptions;
    if kind == IDB && |body| >= 8 {
      var ticks := ScanOptionsLoop(body[8..], e);
      if ticks.Err? {
        return Err(ticks.error);
      }
      var snaplen := Decode32(e, body[4..8]);
      r := Ok(Walk(w.resolutions + [ticks.value], w.linkTypes + [Decode16(e, body[..2])],
                   if snaplen > w.snaplenMax then snaplen else w.snaplenMax, w.stamps));
    } else {
      r := Absorb(w, kind, body, e);
    }
  }

  /** The cursor after a block header, the part of the body that is read, and the skip over the rest. */
  lemma FrameAfterSkip(rest: bytes, e: Endian, kind: nat, blockLen: nat)
    requires |rest| >= 8 && kind == Decode32(e, rest[..4]) && blockLen == Decode32(e, rest[4..8]) && Sane(blockLen)
    ensures blockLen >= 12
    ensures var readLen := ReadLength(kind, blockLen - 12);
      var body := Take(rest[8..], readLen);
      var after := Drop(Drop(rest[8..], readLen), blockLen - 12 - readLen);
      && NextFrame(rest, e) == (if |body| < readLen || |after| < 4 then End else Frame(kind, body, after[4..]))
  {
    hide Decode32, Take, Drop, ReadLength;
    DropDrop(rest[8..], ReadLength(kind, blockLen - 12), blockLen - 12 - ReadLength(kind, blockLen - 12));
  }

  lemma FirstBytes(rest: bytes)
    ensures |Take(rest, 8)| < 8 <==> |rest| < 8
    ensures |rest| >= 8 ==>
      var header := Take(rest, 8);
      header[..4] == rest[..4] && header[4..8] == rest[4..8] && Drop(rest, 8) == rest[8..]
  {
  }

  lemma LastBytes(rest: bytes)
    ensures |Take(rest, 4)| < 4 <==> |rest| < 4
    ensures |rest| >= 4 ==> Drop(rest, 4) == rest[4..]
  {
  }

  method ReadFrame(f: ByteFile, e: Endian) returns (frame: Frame)
    modifies f
    ensures frame == NextFrame(old(f.Rest()), e)
    ensures frame.Frame? ==> f.Rest() == frame.after
  {
    hide Decode32, ReadLength, Take, Drop, ByteFile.Rest;
    ghost var rest := f.Rest();
    FirstBytes(rest);
    var header := f.Read(8);
    if |header| < 8 {
      return End;
    }
    var kind, blockLen := Decode32(e, header[..4]), Decode32(e, header[4..8]);
    if !Sane(blockLen) {
      return End;
    }
    FrameAfterSkip(rest, e, kind, blockLen);
    hide NextFrame;
    var bodyLen := blockLen - 12;
    var readLen := ReadLength(kind, bodyLen);
    var body := f.Read(readLen);
    if |body| < readLen {
      return End;
    }
    f.Skip(bodyLen - readLen);
    LastBytes(f.Rest());
    var trailing := f.Read(4);
    if |trailing| < 4 {
      return End;
    }
    frame := Frame(kind, body, f.Rest());
  }

  method ReadBlocksLoop(f: ByteFile, e: Endian) returns (r: Result<Walk, CaptureError>)
    modifies f
    ensures r == ReadBlocks(old(f.Rest()), e, START)
  {
    hide Absorb, NextFrame;
    ghost var blocks := f.Rest();
    var w := START;
    while true
      invariant ReadBlocks(f.Rest(), e, w) == ReadBlocks(blocks, e, START)
      decreases |f.Rest()|
    {
      var frame := ReadFrame(f, e);
      if frame.End? {
        break;
      }
      var absorbed := AbsorbBlock(w, frame.kind, frame.body, e);
      if absorbed.Err? {
        return Err(absorbed.error);
      }
      w := absorbed.value;
    }
    r := Ok(w);
  }

  method ReadPcapng(f: ByteFile) returns (r: Result<Summary, CaptureError>)
    modifies f
    ensures r == ReadPcapngBytes(f.data)
  {
    hide SectionHeader, ReadBlocks;
    f.SeekTo(0);
    assert f.Rest() == f.data;
    var raw := f.Read(12);
    if |raw| < 12 {
      return Err(Truncated);
    }
    var header := SectionHeader(raw);
    if header.Err? {
      return Err(header.error);
    }
    var (e, length) := header.value;
    f.SeekTo(length);
    var walked := ReadBlocksLoop(f, e);
    match walked {
      case Err(err) => r := Err(err);
      case Ok(w) => r := Ok(Summarise(w));
    }
  }

  method ReadCaptureSummary(data: bytes) returns (r: Result<Summary, CaptureError>)
    ensures r == ReadCaptureBytes(data)
  {
    hide Decode32, ReadPcapBytes, ReadPcapngBytes;
    var f := new ByteFile(data);
    var head := f.Read(4);
    if |head| < 4 {
      return Err(TooShort);
    }
    if Decode32(Big, head) == SHB {
      r := ReadPcapng(f);
    } else {
      f.SeekTo(0);
      assert Drop(data, 0) == data;
      r := ReadPcap(f);
    }
  }

  // ----- interface options: what the capped scan sees

  /** The option list walked within the first `room` bytes of the options area. */
  function Scan(os: seq<Opt>, room: nat, ticks: Ticks): Result<Ticks, CaptureError> {
    if os == [] || room < 4 then Ok(ticks)
    else if os[0].SetsResolution() && room == 4 then Err(IndexOutOfRange)
    else Scan(os[1..], if room < os[0].Size() then 0 else room - os[0].Size(),
              if os[0].SetsResolution() then Resolution(os[0].value[0]) else ticks)
  }

  lemma OptionDecodes(o: Opt, e: Endian, tail: bytes)
    requires o.Valid()
    ensures var b := SerialiseOption(o, e) + tail;
      && Decode16(e, b[..2]) == o.code && Decode16(e, b[2..4]) == |o.value|
      && (o.value != [] ==> b[4] == o.value[0])
  {
    hide Decode16, Encode16, Pad;
    var b := SerialiseOption(o, e) + tail;
    assert b[..2] == Encode16(e, o.code) && b[2..4] == Encode16(e, |o.value|);
    assert o.value != [] ==> Pad(o.value)[0] == Pad(o.value)[..|o.value|][0];
  }

  lemma CutOption(option: bytes, tail: bytes, room: nat)
    requires |option| >= 4 && room >= 4
    ensures var cut := Take(option + tail, room);
      && |cut| >= 4 && cut[..4] == option[..4]
      && (|cut| == 4 <==> room == 4 || |option + tail| == 4)
      && Drop(cut, |option|) == Take(tail, if room < |option| then 0 else room - |option|)
      && (|cut| > 4 ==> cut[4] == (option + tail)[4])
  {
  }

  lemma {:induction false} ScanSerialised(os: seq<Opt>, terminated: bool, e: Endian, room: nat, ticks: Ticks)
    requires forall o | o in os :: o.Valid()
    ensures ScanOptions(Take(SerialiseOptions(os, terminated, e), room), e, ticks) == Scan(os, room, ticks)
  {
    hide Decode16, SerialiseOption, Resolution, Aligned, Take, Drop;
    var all := SerialiseOptions(os, terminated, e);
    var cut := Take(all, room);
    TakeLength(all, room);
    if os != [] && room >= 4 {
      var o, tail := os[0], SerialiseOptions(os[1..], terminated, e);
      var option := SerialiseOption(o, e);
      OptionDecodes(o, e, tail);
      CutOption(option, tail, room);
      assert cut[..2] == all[..2] && cut[2..4] == all[2..4] by {
        assert cut[..2] == cut[..4][..2] && cut[2..4] == cut[..4][2..4];
        assert all[..2] == option[..4][..2] && all[2..4] == option[..4][2..4];
      }
      if !(o.SetsResolution() && room == 4) {
        ScanSerialised(os[1..], terminated, e, if room < o.Size() then 0 else room - o.Size(),
                       if o.SetsResolution() then Resolution(o.value[0]) else ticks);
      }
    } else if os == [] && terminated && room >= 4 {
      ZeroCode(e, room);
    }
  }

  lemma ZeroCode(e: Endian, room: nat)
    requires room >= 4
    ensures var cut := Take([0, 0, 0, 0], room); |cut| == 4 && Decode16(e, cut[..2]) == 0
  {
  }

  function TotalSize(os: seq<Opt>): nat {
    if os == [] then 0 else os[0].Size() + TotalSize(os[1..])
  }

  /** The value of the last resolution option. */
  function LastResolution(os: seq<Opt>, ticks: Ticks): Ticks {
    if os == [] then ticks
    else
      var o := os[|os| - 1];
      if o.SetsResolution() then Resolution(o.value[0]) else LastResolution(os[..|os| - 1], ticks)
  }

  /** Option `k` is a resolution option whose header fills the scanned bytes exactly. */
  predicate HeaderEndsAtCap(os: seq<Opt>, k: nat, room: nat)
    requires k < |os|
  {
    os[k].SetsResolution() && TotalSize(os[..k]) + 4 == room
  }

  lemma {:induction false} ScanRaisesExactly(os: seq<Opt>, room: nat, ticks: Ticks)
    ensures Scan(os, room, ticks).Err? <==> exists k | 0 <= k < |os| :: HeaderEndsAtCap(os, k, room)
  {
    hide Resolution, Aligned;
    if os != [] {
      var left := if room < os[0].Size() then 0 else room - os[0].Size();
      forall k | 1 <= k < |os| ensures HeaderEndsAtCap(os, k, room)
        <==> room >= os[0].Size() + 4 && HeaderEndsAtCap(os[1..], k - 1, left)
      {
        assert os[..k][0] == os[0] && os[..k][1..] == os[1..][..k - 1];
      }
      assert HeaderEndsAtCap(os, 0, room) <==> os[0].SetsResolution() && room == 4;
      if room >= 4 && !(os[0].SetsResolution() && room == 4) {
        var ticks' := if os[0].SetsResolution() then Resolution(os[0].value[0]) else ticks;
        ScanRaisesExactly(os[1..], left, ticks');
        if k :| 0 <= k < |os| - 1 && HeaderEndsAtCap(os[1..], k, left) {
          assert HeaderEndsAtCap(os, k + 1, room);
        }
        if k :| 0 <= k < |os| && HeaderEndsAtCap(os, k, room) {
          assert HeaderEndsAtCap(os[1..], k - 1, left);
        }
      }
    }
  }

  /** Options that fit the scanned bytes never raise, and the last resolution option wins. */
  lemma {:induction false} ScanWithinRoom(os: seq<Opt>, room: nat, ticks: Ticks)
    requires TotalSize(os) <= room
    ensures Scan(os, room, ticks) == Ok(LastResolution(os, ticks))
  {
    hide Resolution, Aligned;
    if os != [] {
      var ticks' := if os[0].SetsResolution() then Resolution(os[0].value[0]) else ticks;
      ScanWithinRoom(os[1..], room - os[0].Size(), ticks');
      LastResolutionCons(os, ticks);
    }
  }

  lemma {:induction false} LastResolutionCons(os: seq<Opt>, ticks: Ticks)
    requires os != []
    ensures LastResolution(os, ticks)
      == LastResolution(os[1..], if os[0].SetsResolution() then Resolution(os[0].value[0]) else ticks)
  {
    hide Resolution;
    if |os| > 1 {
      var init := os[..|os| - 1];
      LastResolutionCons(init, ticks);
      assert os[1..][..|os| - 2] == init[1..];
    }
  }

  /** The number of options whose header lies within the first `room` bytes. */
  function Scanned(os: seq<Opt>, room: nat): nat {
    if os == [] || room < 4 then 0
    else 1 + Scanned(os[1..], if room < os[0].Size() then 0 else room - os[0].Size())
  }

  lemma {:induction false} ScannedExactly(os: seq<Opt>, room: nat)
    ensures Scanned(os, room) <= |os|
    ensures forall k | 0 <= k < |os| :: k < Scanned(os, room) <==> TotalSize(os[..k]) + 4 <= room
  {
    hide Aligned;
    if os != [] {
      var left := if room < os[0].Size() then 0 else room - os[0].Size();
      ScannedExactly(os[1..], left);
      forall k | 0 < k < |os| ensures TotalSize(os[..k]) == os[0].Size() + TotalSize(os[1..][..k - 1]) {
        assert os[..k][1..] == os[1..][..k - 1];
      }
      forall k | 0 < k < |os| ensures k < Scanned(os, room) <==> TotalSize(os[..k]) + 4 <= room {
        assert k - 1 < Scanned(os[1..], left) <==> TotalSize(os[1..][..k - 1]) + 4 <= left;
      }
    }
  }

  /** A scan that does not raise gives the last resolution option of those scanned. */
  lemma {:induction false} ScanTakesScanned(os: seq<Opt>, room: nat, ticks: Ticks)
    requires Scan(os, room, ticks).Ok?
    ensures Scanned(os, room) <= |os|
    ensures Scan(os, room, ticks).value == LastResolution(os[..Scanned(os, room)], ticks)
  {
    hide Resolution, Aligned;
    if os != [] && room >= 4 {
      var ticks' := if os[0].SetsResolution() then Resolution(os[0].value[0]) else ticks;
      var left := if room < os[0].Size() then 0 else room - os[0].Size();
      ScanTakesScanned(os[1..], left, ticks');
      var prefix := os[..Scanned(os, room)];
      assert prefix[1..] == os[1..][..Scanned(os[1..], left)];
      LastResolutionCons(prefix, ticks);
    }
  }

  ghost predicate IsLastResolution(os: seq<Opt>, k: int) {
    0 <= k < |os| && os[k].SetsResolution() && forall j | k < j < |os| :: !os[j].SetsResolution()
  }

  lemma {:induction false} LastResolutionIs(os: seq<Opt>, k: nat, ticks: Ticks)
    requires IsLastResolution(os, k)
    ensures LastResolution(os, ticks) == Resolution(os[k].value[0])
  {
    hide Resolution;
    if k < |os| - 1 {
      LastResolutionIs(os[..|os| - 1], k, ticks);
    }
  }

  /** The options from `n` on have a last resolution option, or do not change the resolution. */
  lemma {:induction false} LastResolutionBehind(os: seq<Opt>, n: nat, ticks: Ticks)
    requires n <= |os|
    ensures (exists k :: n <= k && IsLastResolution(os, k))
      || LastResolution(os, ticks) == LastResolution(os[..n], ticks)
  {
    hide Resolution;
    var m := |os| - 1;
    if n == |os| {
      assert os[..n] == os;
    } else if os[m].SetsResolution() {
      assert IsLastResolution(os, m);
    } else {
      LastResolutionBehind(os[..m], n, ticks);
      assert os[..m][..n] == os[..n];
      if k :| n <= k && IsLastResolution(os[..m], k) {
        assert IsLastResolution(os, k);
      }
    }
  }

  // ----- the walk inverts the serialiser

  /** What the cap of 4096 bytes leaves for options. */
  const OPTION_ROOM: nat := 4088

  /** What one logical block adds to the walk. */
  function Step(w: Walk, b: Block): Result<Walk, CaptureError> {
    match b
    case Interface(link, snaplen, options, _) =>
      (match Scan(options, OPTION_ROOM, MICROSECONDS)
       case Err(err) => Err(err)
       case Ok(ticks) => Ok(Walk(w.resolutions + [ticks], w.linkTypes + [link],
                                 if snaplen > w.snaplenMax then snaplen else w.snaplenMax, w.stamps)))
    case Enhanced(ifId, ticks, _, _, _) =>
      Ok(w.(stamps := w.stamps.See(ticks as real / TicksOf(w.resolutions, ifId) as real)))
    case Simple(_, _) => Ok(w.(stamps := w.stamps.(count := w.stamps.count + 1)))
    case Obsolete(_) => Ok(w)
    case Stub(_, _) => Ok(w)
    case Other(_, _) => Ok(w)
  }

  function Steps(w: Walk, bs: seq<Block>): Result<Walk, CaptureError>
    decreases |bs|
  {
    if bs == [] then Ok(w)
    else match Step(w, bs[0])
      case Err(err) => Err(err)
      case Ok(w') => Steps(w', bs[1..])
  }

  lemma InterfaceBodyRead(header: bytes, options: bytes)
    requires |header| == 8
    ensures Take(header + options, ReadLength(IDB, |header + options|)) == header + Take(options, OPTION_ROOM)
  {
    if |header + options| > OPTION_SCAN_CAP {
      TakeJoin(header, options, OPTION_SCAN_CAP);
    }
  }

  lemma AbsorbsInterface(w: Walk, b: Block, e: Endian)
    requires b.Interface? && b.Valid(e)
    ensures Absorb(w, IDB, Take(Body(b, e), ReadLength(IDB, |Body(b, e)|)), e) == Step(w, b)
  {
    hide Decode16, Decode32, Encode16, Encode32, SerialiseOptions, ScanOptions, Scan;
    var options := SerialiseOptions(b.options, b.terminated, e);
    var body := Take(Body(b, e), ReadLength(IDB, |Body(b, e)|));
    var header := InterfaceHeader(b, e);
    InterfaceBodyRead(header, options);
    hide Take;
    assert body == header + Take(options, OPTION_ROOM);
    assert body[..8] == header && body[8..] == Take(options, OPTION_ROOM);
    assert body[..2] == header[..2] == Encode16(e, b.linkType);
    assert body[4..8] == header[4..8] == Encode32(e, b.snaplen);
    ScanSerialised(b.options, b.terminated, e, OPTION_ROOM, MICROSECONDS);
  }

  lemma AbsorbsEnhanced(w: Walk, b: Block, e: Endian)
    requires b.Enhanced? && b.Valid(e)
    ensures Absorb(w, EPB, Take(Body(b, e), ReadLength(EPB, |Body(b, e)|)), e) == Step(w, b)
  {
    hide Decode32, Encode32, Pad, TimeOf;
    var body := Take(Body(b, e), ReadLength(EPB, |Body(b, e)|));
    var header, hi, lo := EnhancedHeader(b, e), b.ticks / 0x1_0000_0000, b.ticks % 0x1_0000_0000;
    assert body == header;
    assert header[..4] == Encode32(e, b.ifId);
    assert header[4..8] == Encode32(e, hi) && header[8..12] == Encode32(e, lo);
    HalvesJoin(b.ticks, TicksOf(w.resolutions, b.ifId));
  }

  /** The time of a 64-bit tick count is the count over the units per second. */
  lemma HalvesJoin(ticks: nat, units: Ticks)
    ensures TimeOf(ticks / 0x1_0000_0000, ticks % 0x1_0000_0000, units) == ticks as real / units as real
  {
  }

  lemma AbsorbsBody(w: Walk, b: Block, e: Endian)
    requires b.Valid(e)
    ensures Absorb(w, b.Kind(), Take(Body(b, e), ReadLength(b.Kind(), |Body(b, e)|)), e) == Step(w, b)
  {
    hide Decode32, Body;
    if b.Interface? {
      AbsorbsInterface(w, b, e);
    } else if b.Enhanced? {
      AbsorbsEnhanced(w, b, e);
    } else if b.Stub? {
      AbsorbsStub(w, b, e);
    }
  }

  lemma AbsorbsStub(w: Walk, b: Block, e: Endian)
    requires b.Stub? && b.Valid(e)
    ensures Absorb(w, b.kind, Take(Body(b, e), ReadLength(b.kind, |Body(b, e)|)), e) == Step(w, b)
  {
  }

  lemma NextSerialised(b: Block, e: Endian, tail: bytes)
    requires Fits(b, e)
    ensures NextFrame(SerialiseBlock(b, e) + tail, e)
      == Frame(b.Kind(), Take(Body(b, e), ReadLength(b.Kind(), |Body(b, e)|)), tail)
  {
    hide Decode32, Encode32, Body, ReadLength;
    BodyIsAligned(b, e);
    var body, rest := Body(b, e), SerialiseBlock(b, e) + tail;
    var length := Encode32(e, |body| + 12);
    assert rest[..4] == Encode32(e, b.Kind()) && rest[4..8] == length;
    assert rest[8..] == body + (length + tail);
    assert Drop(rest[8..], |body|) == length + tail;
  }

  lemma {:induction false} ReadSerialisedBlocks(bs: seq<Block>, e: Endian, w: Walk)
    requires forall b | b in bs :: Fits(b, e)
    decreases |bs|
    ensures ReadBlocks(SerialiseBlocks(bs, e), e, w) == Steps(w, bs)
  {
    hide SerialiseBlock, NextFrame, Absorb, Step;
    if bs == [] {
      NothingFollows(e);
    } else {
      NextSerialised(bs[0], e, SerialiseBlocks(bs[1..], e));
      AbsorbsBody(w, bs[0], e);
      var stepped := Step(w, bs[0]);
      if stepped.Ok? {
        ReadSerialisedBlocks(bs[1..], e, stepped.value);
      }
    }
  }

  lemma NothingFollows(e: Endian)
    ensures NextFrame([], e) == End
  {
  }

  lemma SectionDecodes(rest: bytes, e: Endian, tail: bytes)
    requires |rest| % 4 == 0 && |rest| + 16 < 0x1_0000_0000
    ensures var length := Encode32(e, |rest| + 16);
      var data := Encode32(e, 0x0A0D_0D0A) + length + Encode32(e, 0x1A2B_3C4D) + rest + length + tail;
      && |data| >= 16
      && Decode32(Big, data[..4]) == SHB
      && SectionHeader(data[..12]) == Ok((e, |rest| + 16))
      && Drop(data, |rest| + 16) == tail
  {
    hide Decode32, Encode32, SectionOrder;
    var length := Encode32(e, |rest| + 16);
    var magic := Encode32(e, 0x1A2B_3C4D);
    var data := Encode32(e, 0x0A0D_0D0A) + length + magic + rest + length + tail;
    var head := Encode32(e, 0x0A0D_0D0A) + length + magic;
    assert data == head + (rest + length + tail);
    assert data[..12] == head && data[..4] == head[..4] == Encode32(e, 0x0A0D_0D0A);
    assert head[4..8] == length && head[8..] == magic;
    SectionMagic(e);
  }

  lemma SectionMagic(e: Endian)
    ensures Decode32(Little, Encode32(e, 0x0A0D_0D0A)) == Decode32(Big, Encode32(e, 0x0A0D_0D0A)) == SHB
    ensures SectionOrder(Decode32(Little, Encode32(e, 0x1A2B_3C4D))) == Some(e)
  {
    hide Encode32, Decode32;
    Encode32Digits(e, 0x0A, 0x0D, 0x0D, 0x0A, 0x0A0D_0D0A);
    Decode32Digits(Little, 0x0A, 0x0D, 0x0D, 0x0A);
    Decode32Digits(Big, 0x0A, 0x0D, 0x0D, 0x0A);
    Encode32Digits(e, 0x1A, 0x2B, 0x3C, 0x4D, 0x1A2B_3C4D);
    Decode32Digits(Little, 0x1A, 0x2B, 0x3C, 0x4D);
    Decode32Digits(Little, 0x4D, 0x3C, 0x2B, 0x1A);
  }

  lemma ReadSerialisedSection(rest: bytes, bs: seq<Block>, e: Endian)
    requires |rest| % 4 == 0 && |rest| + 16 < 0x1_0000_0000
    requires forall b | b in bs :: Fits(b, e)
    ensures ReadCaptureBytes(SerialiseSection(rest, bs, e))
      == match Steps(START, bs) case Err(err) => Err(err) case Ok(w) => Ok(Summarise(w))
  {
    hide Decode32, Encode32, SectionHeader, ReadBlocks, SerialiseBlocks, ReadPcapBytes, Steps;
    SectionDecodes(rest, e, SerialiseBlocks(bs, e));
    ReadSerialisedBlocks(bs, e, START);
  }

  // ----- what the format leaves to the reader

  /** Units per second: a count of ten for each step below 128, and of two for each from there, from one unit. */
  lemma ResolutionMeans(b: byte)
    ensures b == 0 || b == 128 ==> Resolution(b) == 1
    ensures 0 < b < 128 ==> Resolution(b) == 10 * Resolution(b - 1)
    ensures 128 < b ==> Resolution(b) == 2 * Resolution(b - 1)
  {
  }

  /** Of a block's body at most 4096 bytes are read for an interface, 20 for an Enhanced Packet Block, 12 for a Packet
      Block and none for any other, however long it claims to be. */
  lemma BodyReadIsCapped(kind: nat, bodyLen: nat)
    ensures var n := ReadLength(kind, bodyLen);
      && n <= bodyLen
      && (kind == 1 ==> n <= 4096 && (n == bodyLen || n == 4096))
      && (kind == 6 ==> n <= 20 && (n == bodyLen || n == 20))
      && (kind == 2 ==> n <= 12 && (n == bodyLen || n == 12))
      && (kind !in {1, 2, 6} ==> n == 0)
  {
  }

  lemma NextUntrusted(kind: nat, length: nat, e: Endian, tail: bytes)
    requires kind < 0x1_0000_0000 && length < 0x1_0000_0000 && (length < 12 || length % 4 != 0)
    ensures NextFrame(Encode32(e, kind) + Encode32(e, length) + tail, e) == End
  {
    hide Decode32, Encode32;
    var rest := Encode32(e, kind) + Encode32(e, length) + tail;
    assert rest[4..8] == Encode32(e, length);
  }

  lemma {:induction false} ReadUntilUntrusted(bs: seq<Block>, e: Endian, w: Walk, kind: nat, length: nat, tail: bytes)
    requires forall b | b in bs :: Fits(b, e)
    requires kind < 0x1_0000_0000 && length < 0x1_0000_0000 && (length < 12 || length % 4 != 0)
    decreases |bs|
    ensures ReadBlocks(SerialiseBlocks(bs, e) + (Encode32(e, kind) + Encode32(e, length) + tail), e, w) == Steps(w, bs)
  {
    hide SerialiseBlock, NextFrame, Absorb, Step, Encode32;
    var rest := Encode32(e, kind) + Encode32(e, length) + tail;
    if bs == [] {
      assert SerialiseBlocks(bs, e) + rest == rest;
      NextUntrusted(kind, length, e, tail);
    } else {
      var block, more := SerialiseBlock(bs[0], e), SerialiseBlocks(bs[1..], e);
      assert block + more + rest == block + (more + rest);
      NextSerialised(bs[0], e, more + rest);
      AbsorbsBody(w, bs[0], e);
      var stepped := Step(w, bs[0]);
      if stepped.Ok? {
        ReadUntilUntrusted(bs[1..], e, stepped.value, kind, length, tail);
      }
    }
  }

  /** A block length below twelve or not a multiple of four ends the section there, whatever follows. */
  lemma UntrustedLengthEnds(rest: bytes, bs: seq<Block>, e: Endian, kind: nat, length: nat, tail: bytes)
    requires |rest| % 4 == 0 && |rest| + 16 < 0x1_0000_0000
    requires forall b | b in bs :: Fits(b, e)
    requires kind < 0x1_0000_0000 && length < 0x1_0000_0000 && (length < 12 || length % 4 != 0)
    ensures ReadCaptureBytes(SerialiseSection(rest, bs, e) + (Encode32(e, kind) + Encode32(e, length) + tail))
      == ReadCaptureBytes(SerialiseSection(rest, bs, e))
  {
    hide Decode32, Encode32, SectionHeader, ReadBlocks, SerialiseBlocks, ReadPcapBytes, Steps;
    var more := Encode32(e, kind) + Encode32(e, length) + tail;
    var header := Encode32(e, |rest| + 16);
    var head := Encode32(e, 0x0A0D_0D0A) + header + Encode32(e, 0x1A2B_3C4D) + rest + header;
    assert SerialiseSection(rest, bs, e) + more == head + (SerialiseBlocks(bs, e) + more);
    SectionDecodes(rest, e, SerialiseBlocks(bs, e) + more);
    ReadUntilUntrusted(bs, e, START, kind, length, tail);
    ReadSerialisedSection(rest, bs, e);
  }

  /** For every byte string: too short exactly below four bytes; a pcapng file, which is one that starts with the
      section header type, is truncated exactly below twelve; and then its byte order is refused exactly when bytes
      eight to twelve are the magic number in neither order. */
  lemma SectionRefusedExactly(data: bytes)
    ensures ReadCaptureBytes(data) == Err(TooShort) <==> |data| < 4
    ensures |data| >= 4 && data[..4] != [0x0A, 0x0D, 0x0D, 0x0A] ==> ReadCaptureBytes(data) == ReadPcapBytes(data)
    ensures |data| >= 4 && data[..4] == [0x0A, 0x0D, 0x0D, 0x0A] ==>
      var r := ReadCaptureBytes(data);
      && (r == Err(Truncated) <==> |data| < 12)
      && (|data| >= 12 ==>
            (r.Err? && r.error.BadMagic?
             <==> data[8..12] != [0x4D, 0x3C, 0x2B, 0x1A] && data[8..12] != [0x1A, 0x2B, 0x3C, 0x4D]))
  {
    hide Decode32, ReadPcapBytes, SectionOrder;
    PcapNeverTooShort(data);
    if |data| >= 4 {
      FourBytes(data[..4]);
      if data[..4] == [0x0A, 0x0D, 0x0D, 0x0A] && |data| >= 12 {
        assert data[..12][..4] == data[..4] && data[..12][8..] == data[8..12];
        OrderIsKnown(data[8..12]);
        var order := SectionOrder(Decode32(Little, data[8..12]));
        if order.Some? {
          BlocksOnlyIndex(Drop(data, Decode32(order.value, data[..12][4..8])), order.value, START);
        }
      }
    }
  }

  lemma PcapNeverTooShort(data: bytes)
    ensures ReadPcapBytes(data) != Err(TooShort)
  {
    RefusedExactly(data);
  }

  lemma FourBytes(first: bytes)
    requires |first| == 4
    ensures Decode32(Big, first) == SHB <==> first == [0x0A, 0x0D, 0x0D, 0x0A]
    ensures Decode32(Little, first) == SHB <==> first == [0x0A, 0x0D, 0x0D, 0x0A]
  {
    Decode32Digits(Big, first[0], first[1], first[2], first[3]);
    Decode32Digits(Little, first[0], first[1], first[2], first[3]);
    assert first == [first[0], first[1], first[2], first[3]];
    hide Decode32;
  }

  lemma OrderIsKnown(order: bytes)
    requires |order| == 4
    ensures SectionOrder(Decode32(Little, order)).Some?
      <==> order == [0x4D, 0x3C, 0x2B, 0x1A] || order == [0x1A, 0x2B, 0x3C, 0x4D]
  {
    Decode32Digits(Little, order[0], order[1], order[2], order[3]);
    assert order == [order[0], order[1], order[2], order[3]];
    hide Decode32;
  }

  lemma {:induction false} BlocksOnlyIndex(rest: bytes, e: Endian, w: Walk)
    ensures var r := ReadBlocks(rest, e, w); r.Ok? || r.error == IndexOutOfRange
    decreases |rest|
  {
    hide NextFrame, Absorb;
    var frame := NextFrame(rest, e);
    if frame.Frame? {
      AbsorbOnlyIndex(w, frame.kind, frame.body, e);
      var absorbed := Absorb(w, frame.kind, frame.body, e);
      if absorbed.Ok? {
        BlocksOnlyIndex(frame.after, e, absorbed.value);
      }
    }
  }

  lemma AbsorbOnlyIndex(w: Walk, kind: nat, body: bytes, e: Endian)
    ensures Absorb(w, kind, body, e).Ok? || Absorb(w, kind, body, e).error == IndexOutOfRange
  {
    hide Decode16, Decode32, ScanOptions;
    if |body| >= 8 {
      OptionsOnlyIndex(body[8..], e, MICROSECONDS);
    }
  }

  lemma {:induction false} OptionsOnlyIndex(rest: bytes, e: Endian, ticks: Ticks)
    ensures var r := ScanOptions(rest, e, ticks); r.Ok? || r.error == IndexOutOfRange
    decreases |rest|
  {
    hide Decode16, Resolution, Aligned;
    if |rest| >= 4 {
      var code, length := Decode16(e, rest[..2]), Decode16(e, rest[2..4]);
      if code != 0 && !(code == IF_TSRESOL && length >= 1 && |rest| == 4) {
        OptionsOnlyIndex(Drop(rest, 4 + Aligned(length)), e,
                         if code == IF_TSRESOL && length >= 1 then Resolution(rest[4]) else ticks);
      }
    }
  }

  // ----- truncated sections

  lemma NextCut(b: Block, e: Endian, tail: bytes, n: nat)
    requires Fits(b, e) && n < |SerialiseBlock(b, e)|
    ensures NextFrame(Take(SerialiseBlock(b, e) + tail, n), e) == End
  {
    hide Decode32, Encode32, Body, ReadLength, Sane;
    var whole := SerialiseBlock(b, e) + tail;
    var rest := Take(whole, n);
    var length := Encode32(e, |Body(b, e)| + 12);
    if n >= 8 {
      assert rest[..4] == whole[..4] == Encode32(e, b.Kind()) && rest[4..8] == whole[4..8] == length;
      DropLength(rest[8..], |Body(b, e)|);
    }
  }

  /** How many leading blocks lie within the first `n` bytes, trailing length included. */
  ghost function BlocksWithin(bs: seq<Block>, e: Endian, n: nat): (k: nat)
    requires forall b | b in bs :: Fits(b, e)
    ensures k <= |bs|
  {
    if bs == [] || n < |SerialiseBlock(bs[0], e)| then 0
    else 1 + BlocksWithin(bs[1..], e, n - |SerialiseBlock(bs[0], e)|)
  }

  /** A block cut anywhere, even behind the bytes that are read, is dropped with everything after it. */
  lemma {:induction false} TruncatedBlocks(bs: seq<Block>, e: Endian, w: Walk, n: nat)
    requires forall b | b in bs :: Fits(b, e)
    decreases |bs|
    ensures ReadBlocks(Take(SerialiseBlocks(bs, e), n), e, w) == Steps(w, bs[..BlocksWithin(bs, e, n)])
  {
    hide SerialiseBlock, NextFrame, Absorb, Step, Take;
    if bs == [] {
      TakeLength([], n);
      NothingFollows(e);
    } else {
      var block, tail := SerialiseBlock(bs[0], e), SerialiseBlocks(bs[1..], e);
      if n < |block| {
        NextCut(bs[0], e, tail, n);
      } else {
        var left := n - |block|;
        TakeJoin(block, tail, n);
        NextSerialised(bs[0], e, Take(tail, left));
        AbsorbsBody(w, bs[0], e);
        var k, stepped := BlocksWithin(bs, e, n), Step(w, bs[0]);
        assert bs[..k][0] == bs[0] && bs[..k][1..] == bs[1..][..k - 1];
        if stepped.Ok? {
          TruncatedBlocks(bs[1..], e, stepped.value, left);
        }
      }
    }
  }

  lemma CutHeader(rest: bytes, e: Endian, tail: bytes, n: nat)
    requires |rest| % 4 == 0 && |rest| + 16 < 0x1_0000_0000 && n >= 12
    ensures var length := Encode32(e, |rest| + 16);
      var data := Encode32(e, 0x0A0D_0D0A) + length + Encode32(e, 0x1A2B_3C4D) + rest + length + tail;
      var cut, size := Take(data, n), |rest| + 16;
      && |cut| >= 12 && Decode32(Big, cut[..4]) == SHB
      && SectionHeader(cut[..12]) == Ok((e, size))
      && Drop(cut, size) == Take(tail, if n < size then 0 else n - size)
  {
    SectionDecodes(rest, e, tail);
    hide Decode32, Encode32, SectionHeader;
    var length := Encode32(e, |rest| + 16);
    var head := Encode32(e, 0x0A0D_0D0A) + length + Encode32(e, 0x1A2B_3C4D) + rest + length;
    var data := head + tail;
    var cut := Take(data, n);
    assert cut[..12] == data[..12] && cut[..4] == data[..4];
    if n >= |head| {
      TakeJoin(head, tail, n);
    }
  }

  /** A section cut anywhere reads as its leading whole blocks; a cut inside the section header leaves no
      block, and one within the first twelve bytes is an error. */
  lemma TruncatedSection(rest: bytes, bs: seq<Block>, e: Endian, n: nat)
    requires |rest| % 4 == 0 && |rest| + 16 < 0x1_0000_0000
    requires forall b | b in bs :: Fits(b, e)
    ensures ReadCaptureBytes(Take(SerialiseSection(rest, bs, e), n))
      == if n < 4 then Err(TooShort) else if n < 12 then Err(Truncated)
         else
           var left := if n < |rest| + 16 then 0 else n - (|rest| + 16);
           match Steps(START, bs[..BlocksWithin(bs, e, left)]) case Err(err) => Err(err) case Ok(w) => Ok(Summarise(w))
  {
    hide Decode32, Encode32, SectionHeader, ReadBlocks, SerialiseBlocks, ReadPcapBytes, Steps, BlocksWithin, Drop, Take;
    var data := SerialiseSection(rest, bs, e);
    TakeLength(data, n);
    if 4 <= n < 12 {
      CutMagic(rest, bs, e, n);
    } else if n >= 12 {
      CutHeader(rest, e, SerialiseBlocks(bs, e), n);
      TruncatedBlocks(bs, e, START, if n < |rest| + 16 then 0 else n - (|rest| + 16));
    }
  }

  lemma CutMagic(rest: bytes, bs: seq<Block>, e: Endian, n: nat)
    requires |rest| % 4 == 0 && |rest| + 16 < 0x1_0000_0000
    requires (forall b | b in bs :: Fits(b, e)) && 4 <= n
    ensures var cut := Take(SerialiseSection(rest, bs, e), n);
      |cut| >= 4 && Decode32(Big, cut[..4]) == SHB
  {
    hide Decode32, Encode32, SerialiseBlocks;
    SectionMagic(e);
    var data := SerialiseSection(rest, bs, e);
    assert data[..4] == Encode32(e, 0x0A0D_0D0A) && Take(data, n)[..4] == data[..4];
  }

  // ----- obsolete packets

  lemma {:induction false} StepsSkipObsolete(w: Walk, bs: seq<Block>, i: nat, content: bytes)
    requires i <= |bs|
    decreases |bs|
    ensures Steps(w, bs[..i] + [Obsolete(content)] + bs[i..]) == Steps(w, bs)
  {
    var all := bs[..i] + [Obsolete(content)] + bs[i..];
    if i == 0 {
      assert all[1..] == bs;
    } else {
      hide Step;
      assert all[0] == bs[0] && all[1..] == bs[1..][..i - 1] + [Obsolete(content)] + bs[1..][i - 1..];
      var stepped := Step(w, bs[0]);
      if stepped.Ok? {
        StepsSkipObsolete(stepped.value, bs[1..], i - 1, content);
      }
    }
  }

  /** A Packet Block anywhere in a section changes nothing in the summary: it is never counted. */
  lemma ObsoletePacketsNeverCount(rest: bytes, bs: seq<Block>, e: Endian, i: nat, content: bytes)
    requires |rest| % 4 == 0 && |rest| + 16 < 0x1_0000_0000 && i <= |bs|
    requires (forall b | b in bs :: Fits(b, e)) && Fits(Obsolete(content), e)
    ensures ReadCaptureBytes(SerialiseSection(rest, bs[..i] + [Obsolete(content)] + bs[i..], e))
      == ReadCaptureBytes(SerialiseSection(rest, bs, e))
  {
    hide SerialiseSection, ReadCaptureBytes, Steps, Fits;
    ReadSerialisedSection(rest, bs, e);
    ReadSerialisedSection(rest, bs[..i] + [Obsolete(content)] + bs[i..], e);
    StepsSkipObsolete(START, bs, i, content);
  }

  // ----- what a section says, block by block

  /** The resolution an interface declares, as far as it is scanned. */
  function Declared(b: Block): Ticks
    requires b.Interface?
  {
    match Scan(b.options, OPTION_ROOM, 1_000_000)
    case Ok(ticks) => ticks
    case Err(_) => 1_000_000
  }

  function Interfaces(bs: seq<Block>): (ifs: seq<Block>)
    ensures forall b | b in ifs :: b.Interface?
  {
    if bs == [] then []
    else Interfaces(bs[..|bs| - 1]) + if bs[|bs| - 1].Interface? then [bs[|bs| - 1]] else []
  }

  /** The times of the Enhanced Packet Blocks in file order, each in the resolution of the interface
      it names among those described before it. */
  function Times(bs: seq<Block>): seq<real> {
    if bs == [] then []
    else
      var before, b := bs[..|bs| - 1], bs[|bs| - 1];
      if !b.Enhanced? then Times(before)
      else
        var ifs := Interfaces(before);
        Times(before) + [b.ticks as real / (if b.ifId < |ifs| then Declared(ifs[b.ifId]) else 1_000_000) as real]
  }

  function PacketBlocks(bs: seq<Block>): set<nat> {
    set i: nat | i < |bs| && (bs[i].Enhanced? || bs[i].Simple?)
  }

  predicate Raises(b: Block) {
    b.Interface? && exists k | 0 <= k < |b.options| :: HeaderEndsAtCap(b.options, k, OPTION_ROOM)
  }

  ghost predicate Describes(w: Walk, bs: seq<Block>) {
    var ifs, ts := Interfaces(bs), Times(bs);
    && |w.resolutions| == |w.linkTypes| == |ifs|
    && (forall i | 0 <= i < |ifs| :: w.resolutions[i] == Declared(ifs[i]) && w.linkTypes[i] == ifs[i].linkType)
    && (forall i | 0 <= i < |ifs| :: ifs[i].snaplen <= w.snaplenMax)
    && (w.snaplenMax == 0 || exists i :: 0 <= i < |ifs| && ifs[i].snaplen == w.snaplenMax)
    && w.stamps.count == |PacketBlocks(bs)|
    && w.stamps.first == (if ts == [] then None else Some(ts[0]))
    && w.stamps.last == (if ts == [] then None else Some(ts[|ts| - 1]))
  }

  lemma {:induction false} StepsSnoc(w: Walk, bs: seq<Block>, b: Block)
    decreases |bs|
    ensures Steps(w, bs + [b]) == match Steps(w, bs) case Err(err) => Err(err) case Ok(w') => Step(w', b)
  {
    hide Step;
    var all := bs + [b];
    if bs == [] {
      assert all[0] == b && all[1..] == [];
    } else {
      assert all[0] == bs[0] && all[1..] == bs[1..] + [b];
      var stepped := Step(w, bs[0]);
      if stepped.Ok? {
        StepsSnoc(stepped.value, bs[1..], b);
      }
    }
  }

  lemma PacketBlocksSnoc(bs: seq<Block>)
    requires bs != []
    ensures var before, b := bs[..|bs| - 1], bs[|bs| - 1];
      |PacketBlocks(bs)| == |PacketBlocks(before)| + if b.Enhanced? || b.Simple? then 1 else 0
  {
    var n := |bs| - 1;
    assert PacketBlocks(bs) == PacketBlocks(bs[..n]) + if bs[n].Enhanced? || bs[n].Simple? then {n} else {};
  }

  lemma InterfaceDescribes(w: Walk, bs: seq<Block>)
    requires bs != [] && bs[|bs| - 1].Interface? && Describes(w, bs[..|bs| - 1]) && !Raises(bs[|bs| - 1])
    ensures Step(w, bs[|bs| - 1]).Ok? && Describes(Step(w, bs[|bs| - 1]).value, bs)
  {
    hide Scan, HeaderEndsAtCap, PacketBlocks;
    var before, b := bs[..|bs| - 1], bs[|bs| - 1];
    PacketBlocksSnoc(bs);
    ScanRaisesExactly(b.options, OPTION_ROOM, MICROSECONDS);
    var ifs, w' := Interfaces(before), Step(w, b).value;
    assert Interfaces(bs) == ifs + [b];
    if w'.snaplenMax == w.snaplenMax && w.snaplenMax != 0 {
      var i :| 0 <= i < |ifs| && ifs[i].snaplen == w.snaplenMax;
      assert Interfaces(bs)[i] == ifs[i];
    } else if w'.snaplenMax != 0 {
      assert Interfaces(bs)[|ifs|].snaplen == w'.snaplenMax;
    }
  }

  /** The resolution that a walk has for an interface is the one the interfaces so far declare. */
  lemma SameTicks(resolutions: seq<Ticks>, ifs: seq<Block>, ifId: nat)
    requires |resolutions| == |ifs| && forall b | b in ifs :: b.Interface?
    requires forall i | 0 <= i < |ifs| :: resolutions[i] == Declared(ifs[i])
    ensures TicksOf(resolutions, ifId) == if ifId < |ifs| then Declared(ifs[ifId]) else MICROSECONDS
  {
    hide Declared;
  }

  lemma EnhancedDescribes(w: Walk, bs: seq<Block>)
    requires bs != [] && bs[|bs| - 1].Enhanced? && Describes(w, bs[..|bs| - 1])
    ensures Step(w, bs[|bs| - 1]).Ok? && Describes(Step(w, bs[|bs| - 1]).value, bs)
  {
    hide Declared, PacketBlocks, TicksOf;
    var before, b := bs[..|bs| - 1], bs[|bs| - 1];
    PacketBlocksSnoc(bs);
    assert Interfaces(bs) == Interfaces(before);
    SameTicks(w.resolutions, Interfaces(before), b.ifId);
    var t := b.ticks as real / TicksOf(w.resolutions, b.ifId) as real;
    assert Times(bs) == Times(before) + [t];
  }

  lemma UnstampedDescribes(w: Walk, bs: seq<Block>)
    requires bs != [] && !bs[|bs| - 1].Interface? && !bs[|bs| - 1].Enhanced? && Describes(w, bs[..|bs| - 1])
    ensures Step(w, bs[|bs| - 1]).Ok? && Describes(Step(w, bs[|bs| - 1]).value, bs)
  {
    hide Declared, PacketBlocks, TicksOf;
    PacketBlocksSnoc(bs);
    assert Interfaces(bs) == Interfaces(bs[..|bs| - 1]) && Times(bs) == Times(bs[..|bs| - 1]);
  }

  lemma StepDescribes(w: Walk, bs: seq<Block>)
    requires bs != [] && Describes(w, bs[..|bs| - 1]) && !Raises(bs[|bs| - 1])
    ensures Step(w, bs[|bs| - 1]).Ok? && Describes(Step(w, bs[|bs| - 1]).value, bs)
  {
    hide Describes, Raises, Step;
    if bs[|bs| - 1].Interface? {
      InterfaceDescribes(w, bs);
    } else if bs[|bs| - 1].Enhanced? {
      EnhancedDescribes(w, bs);
    } else {
      UnstampedDescribes(w, bs);
    }
  }

  lemma {:induction false} StepsDescribe(bs: seq<Block>)
    ensures var r := Steps(START, bs);
      && (r.Ok? <==> forall i | 0 <= i < |bs| :: !Raises(bs[i]))
      && (r.Ok? ==> Describes(r.value, bs))
  {
    hide Step, Describes, Raises;
    if bs == [] {
      StartDescribes();
    } else {
      var before, b := bs[..|bs| - 1], bs[|bs| - 1];
      assert bs == before + [b];
      StepsDescribe(before);
      StepsSnoc(START, before, b);
      var r := Steps(START, before);
      if r.Ok? {
        if Raises(b) {
          StepRaises(r.value, b);
        } else {
          StepDescribes(r.value, bs);
          forall i | 0 <= i < |bs| ensures !Raises(bs[i]) {
            assert i < |before| ==> bs[i] == before[i];
          }
        }
      } else {
        var i :| 0 <= i < |before| && Raises(before[i]);
        assert bs[i] == before[i];
      }
    }
  }

  lemma StartDescribes()
    ensures Describes(START, [])
  {
    assert PacketBlocks([]) == {};
  }

  lemma StepRaises(w: Walk, b: Block)
    requires Raises(b)
    ensures Step(w, b).Err?
  {
    hide Scan, HeaderEndsAtCap;
    ScanRaisesExactly(b.options, OPTION_ROOM, MICROSECONDS);
  }

  /** For every section of interface, packet and other blocks, in either byte order: the reader raises
      exactly when an interface carries a resolution option whose header ends at the scan cap; else it
      recovers the packet count, the first interface's link type, the largest snaplen, and the first and
      last time stamped by an Enhanced Packet Block: its tick count over the units per second of the interface
      it names, a million for one never described. */
  lemma NgRoundTrip(rest: bytes, bs: seq<Block>, e: Endian)
    requires |rest| % 4 == 0 && |rest| + 16 < 0x1_0000_0000
    requires forall b | b in bs :: Fits(b, e)
    ensures var r := ReadCaptureBytes(SerialiseSection(rest, bs, e));
      && (r.Ok? <==> forall i | 0 <= i < |bs| :: !Raises(bs[i]))
      && (r.Ok? ==>
            var ifs, ts, s := Interfaces(bs), Times(bs), r.value;
            && s.packetCount == |PacketBlocks(bs)|
            && s.start == (if ts == [] then None else Some(ts[0]))
            && s.end == (if ts == [] then None else Some(ts[|ts| - 1]))
            && s.linkType == (if ifs == [] then None else Some(ifs[0].linkType))
            && (forall i | 0 <= i < |ifs| :: ifs[i].snaplen <= s.snaplen)
            && (s.snaplen == 0 || exists i :: 0 <= i < |ifs| && ifs[i].snaplen == s.snaplen)
            && s.format == Format.PcapNg
            && s.Duration() == if ts == [] then 0.0 else ts[|ts| - 1] - ts[0])
  {
    hide ReadCaptureBytes, SerialiseSection, Steps, Raises, Interfaces, Times, PacketBlocks;
    ReadSerialisedSection(rest, bs, e);
    StepsDescribe(bs);
  }

  /** An interface whose options fit the cap never makes the reader raise, and counts in the resolution
      of its last resolution option. */
  lemma FittingInterfaceIsRead(b: Block)
    requires b.Interface? && TotalSize(b.options) <= OPTION_ROOM
    ensures !Raises(b) && Declared(b) == LastResolution(b.options, MICROSECONDS)
  {
    hide Scan, HeaderEndsAtCap, LastResolution, TotalSize;
    ScanWithinRoom(b.options, OPTION_ROOM, MICROSECONDS);
    ScanRaisesExactly(b.options, OPTION_ROOM, MICROSECONDS);
  }

  /** Over the cap, when the reader does not raise: the interface counts in the last resolution option whose header
      is within the cap. That is what its options declare exactly when no resolution option lies behind those, or
      the last one behind them names the same resolution. */
  lemma CappedInterfaceIsRead(b: Block)
    requires b.Interface? && !Raises(b)
    ensures var n := Scanned(b.options, OPTION_ROOM);
      && n <= |b.options|
      && (forall k | 0 <= k < |b.options| :: k < n <==> TotalSize(b.options[..k]) + 4 <= OPTION_ROOM)
      && Declared(b) == LastResolution(b.options[..n], MICROSECONDS)
      && (Declared(b) == LastResolution(b.options, MICROSECONDS)
          <==> forall k | n <= k && IsLastResolution(b.options, k) ::
                 Resolution(b.options[k].value[0]) == Declared(b))
  {
    hide Scan, Scanned, HeaderEndsAtCap, LastResolution, TotalSize, Resolution, IsLastResolution;
    var os, n := b.options, Scanned(b.options, OPTION_ROOM);
    ScanRaisesExactly(os, OPTION_ROOM, MICROSECONDS);
    ScannedExactly(os, OPTION_ROOM);
    ScanTakesScanned(os, OPTION_ROOM, MICROSECONDS);
    LastResolutionBehind(os, n, MICROSECONDS);
    forall k | n <= k && IsLastResolution(os, k)
      ensures k < |os| && os[k].SetsResolution() && LastResolution(os, MICROSECONDS) == Resolution(os[k].value[0])
    {
      LastResolutionIs(os, k, MICROSECONDS);
      IsResolution(os, k);
    }
  }

  lemma IsResolution(os: seq<Opt>, k: int)
    requires IsLastResolution(os, k)
    ensures 0 <= k < |os| && os[k].SetsResolution()
  {
  }

  /** It happens: a well-formed interface that declares nanoseconds behind the cap counts in microseconds. */
  lemma CappedResolutionIsIgnored(e: Endian)
    ensures exists b: Block ::
      b.Interface? && Fits(b, e) && !Raises(b) && Declared(b) != LastResolution(b.options, MICROSECONDS)
  {
    hide Encode16, Encode32, SerialiseOptions, Scan, Resolution;
    var os := [Opt(1, seq(4084, _ => 0)), Opt(IF_TSRESOL, [9])];
    var b := Interface(1, 65535, os, true);
    assert TotalSize(os) == 4096 && TotalSize(os[..1]) == 4088 && TotalSize(os[..0]) == 0 by {
      assert os[0].Size() == 4088 && os[1].Size() == 8;
      assert os[..1][1..] == [] && os[1..] == [os[1]] && os[1..][1..] == [];
      assert TotalSize(os[1..]) == 8;
    }
    OptionsLength(os, true, e);
    assert !HeaderEndsAtCap(os, 0, OPTION_ROOM) && !HeaderEndsAtCap(os, 1, OPTION_ROOM);
    assert Fits(b, e) && !Raises(b);
    NanosecondsDiffer();
    CappedInterfaceIsRead(b);
    assert Scanned(os, OPTION_ROOM) == 1;
    assert LastResolution(os[..1], MICROSECONDS) == MICROSECONDS;
    assert IsLastResolution(os, 1);
  }

  lemma NanosecondsDiffer()
    ensures Resolution(9) != MICROSECONDS
  {
    assert Pow(10, 3) == 1000 && Pow(10, 6) == 1_000_000;
    assert Pow(10, 9) > Pow(10, 6);
  }

  lemma {:induction false} OptionsLength(os: seq<Opt>, terminated: bool, e: Endian)
    requires forall o | o in os :: o.Valid()
    ensures |SerialiseOptions(os, terminated, e)| == TotalSize(os) + if terminated then 4 else 0
  {
    if os != [] {
      OptionsLength(os[1..], terminated, e);
    }
  }

  /** The cap is not benign: a section with one well-formed interface block of more than 4096 bytes
      makes the reader raise. */
  lemma OversizedInterfaceRaises(e: Endian)
    ensures exists b: Block :: Fits(b, e) && ReadCaptureBytes(SerialiseSection([], [b], e)).Err?
  {
    hide Decode32, Encode32, Encode16, SerialiseOptions, ReadCaptureBytes, Resolution;
    var os := [Opt(1, seq(4080, _ => 0)), Opt(IF_TSRESOL, [9])];
    var b := Interface(1, 65535, os, true);
    assert TotalSize(os) == 4092 && TotalSize(os[..1]) == 4084 by {
      assert os[0].Size() == 4084 && os[1].Size() == 8;
      assert os[..1][1..] == [] && os[1..] == [os[1]] && os[1..][1..] == [];
      assert TotalSize(os[1..]) == 8;
    }
    OptionsLength(os, true, e);
    assert HeaderEndsAtCap(os, 1, OPTION_ROOM);
    assert Fits(b, e) && Raises(b);
    NgRoundTrip([], [b], e);
  }

  /** The two byte orders of one capture read the same. */
  lemma ByteOrderDoesNotMatter(rest: bytes, bs: seq<Block>)
    requires |rest| % 4 == 0 && |rest| + 16 < 0x1_0000_0000
    requires forall b | b in bs :: Fits(b, Little) && Fits(b, Big)
    ensures ReadCaptureBytes(SerialiseSection(rest, bs, Little)) == ReadCaptureBytes(SerialiseSection(rest, bs, Big))
  {
    hide ReadCaptureBytes, SerialiseSection, Steps;
    ReadSerialisedSection(rest, bs, Little);
    ReadSerialisedSection(rest, bs, Big);
  }

  /** The entry point reads a serialised classic capture with the classic reader. */
  lemma ClassicIsDispatched(h: Header, rs: seq<Record>, e: Endian, nanos: bool)
    requires h.Valid() && ValidRecords(rs)
    ensures var data := SerialiseHeader(h, e, nanos) + SerialiseRecords(rs, e);
      ReadCaptureBytes(data) == ReadPcapBytes(data)
  {
    hide ReadPcapBytes, ReadPcapngBytes, Decode32, SerialiseHeader, SerialiseRecords;
    HeaderDecodes(h, e, nanos, SerialiseRecords(rs, e));
  }
}
