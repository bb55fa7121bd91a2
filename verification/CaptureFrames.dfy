/** Captures other programs write: either byte order, VLAN tags, IP and TCP options, any
    sequence number and flags, trailing padding, and a file cut short. */
module CaptureFrames {
  import opened Bytes
  import opened Reassembly
  import opened Capture

  /** `struct.pack(">I", n)`; `Be32` undoes it. */
  function B32(n: u32): (s: seq<byte>)
    ensures |s| == 4
  {
    var high: u16, low: u16 := n / 0x1_0000, n % 0x1_0000;
    U16(high) + U16(low)
  }

  lemma B32Inverse(n: u32)
    ensures Be32(B32(n), 0) == n
  {
    var high: u16, low: u16 := n / 0x1_0000, n % 0x1_0000;
    assert B32(n)[0..2] == U16(high) && B32(n)[2..4] == U16(low);
    hide U16, Be16;
    Field(B32(n), 0, high);
    Field(B32(n), 2, low);
  }

  // --- one frame ---

  /** An Ethernet frame with an IPv4 packet; octets that are not looked at are free. */
  datatype Packet = Packet(
    macs: seq<byte>, tag: Option<seq<byte>>,
    service: byte, identification: seq<byte>, lifetime: byte, protocol: byte, ipChecksum: seq<byte>,
    source: seq<byte>, destination: seq<byte>, ipOptions: seq<byte>,
    sport: u16, dport: u16, position: u32, acknowledged: seq<byte>, flags: byte, window: seq<byte>,
    tcpOptions: seq<byte>, payload: seq<byte>, trailer: seq<byte>)

  function Total(p: Packet): nat {
    40 + |p.ipOptions| + |p.tcpOptions| + |p.payload|
  }

  predicate Framed(p: Packet) {
    && |p.macs| == 12 && (p.tag.Some? ==> |p.tag.value| == 2)
    && |p.identification| == 4 && |p.ipChecksum| == 2 && |p.source| == 4 && |p.destination| == 4
    && |p.ipOptions| % 4 == 0 && |p.ipOptions| <= 40
    && |p.acknowledged| == 4 && |p.window| == 6 && |p.tcpOptions| % 4 == 0 && |p.tcpOptions| <= 40
    && Total(p) < 0x1_0000
  }

  function Ethernet(p: Packet): (s: seq<byte>)
    requires Framed(p)
    ensures |s| == if p.tag.Some? then 18 else 14
  {
    p.macs + (if p.tag.Some? then [0x81, 0] + p.tag.value else []) + [8, 0]
  }

  function Ip(p: Packet): (s: seq<byte>)
    requires Framed(p)
    ensures |s| == 20 + |p.ipOptions|
  {
    [0x45 + |p.ipOptions| / 4, p.service] + U16(Total(p)) + p.identification + [p.lifetime, p.protocol]
    + p.ipChecksum + p.source + p.destination + p.ipOptions
  }

  function Tcp(p: Packet): (s: seq<byte>)
    requires Framed(p)
    ensures |s| == 20 + |p.tcpOptions|
  {
    U16(p.sport) + U16(p.dport) + B32(p.position) + p.acknowledged
    + [0x50 + 4 * |p.tcpOptions|, p.flags] + p.window + p.tcpOptions
  }

  function Octets(p: Packet): seq<byte>
    requires Framed(p)
  {
    Ethernet(p) + Ip(p) + Tcp(p) + p.payload + p.trailer
  }

  lemma IpFields(p: Packet)
    requires Framed(p)
    ensures var ip := Ip(p);
            && ip[0] % 16 * 4 == |ip| && ip[9] == p.protocol && Be16(ip, 2) == Total(p)
            && ip[12..16] == p.source && ip[16..20] == p.destination
  {
    hide U16, Be16;
    var ip := Ip(p);
    assert ip[2..4] == U16(Total(p));
    Field(ip, 2, Total(p));
  }

  lemma TcpFields(p: Packet)
    requires Framed(p)
    ensures var tcp := Tcp(p);
            && Be16(tcp, 0) == p.sport && Be16(tcp, 2) == p.dport && Be32(tcp, 4) == p.position
            && tcp[12] / 16 * 4 == |tcp| && tcp[13] == p.flags
  {
    hide U16, Be16;
    var tcp, position := Tcp(p), B32(p.position);
    hide B32;
    assert tcp[0..2] == U16(p.sport) && tcp[2..4] == U16(p.dport);
    assert tcp[4..8] == position && tcp[12..14] == [0x50 + 4 * |p.tcpOptions|, p.flags];
    assert tcp[12] == tcp[12..14][0] && tcp[13] == tcp[12..14][1];
    Field(tcp, 0, p.sport);
    Field(tcp, 2, p.dport);
    B32Inverse(p.position);
    hide Be32;
    WordAt(tcp, 4, position);
  }

  /** A 32-bit field is its four octets, wherever they stand. */
  lemma WordAt(part: seq<byte>, at: nat, word: seq<byte>)
    requires at + 4 <= |part| && part[at..at + 4] == word
    ensures Be32(part, at) == Be32(word, 0)
  {
    assert part[at] == word[0] && part[at + 1] == word[1] && part[at + 2] == word[2] && part[at + 3] == word[3];
  }

  lemma PartAt(head: seq<byte>, part: seq<byte>, tail: seq<byte>)
    ensures var all := head + part + tail;
            all[|head|..|head| + |part|] == part
  {
  }

  lemma EthernetFields(p: Packet)
    requires Framed(p)
    ensures var e := Ethernet(p);
            && (p.tag.Some? <==> Be16(e, 12) == 0x8100)
            && Be16(e, |e| - 2) == 0x0800
  {
    var e := Ethernet(p);
    assert e[|e| - 2..] == [8, 0];
    assert e[|e| - 2] == e[|e| - 2..][0] && e[|e| - 1] == e[|e| - 2..][1];
    if p.tag.Some? {
      assert e[12] == 0x81 && e[13] == 0;
    }
  }

  lemma Middle(head: seq<byte>, part: seq<byte>, tail: seq<byte>)
    ensures (head + part + tail)[|head|..|head| + |part|] == part
    ensures head + part + tail == head + (part + tail)
  {
  }

  lemma FiveParts(a: seq<byte>, b: seq<byte>, c: seq<byte>, d: seq<byte>, e: seq<byte>)
    ensures var data := a + b + c + d + e;
            && data[..|a|] == a && data[|a|..|a + b|] == b && data[|a + b|..|a + b + c|] == c
            && data[|a + b + c|..|a + b + c + d|] == d
  {
    Middle(a + b + c, d, e);
    Middle(a + b, c, d + e);
    Middle(a, b, c + (d + e));
    Middle([], a, b + (c + (d + e)));
    assert [] + a == a;
  }

  /** Where the parts of a frame stand. */
  lemma Parts(p: Packet)
    requires Framed(p)
    ensures var data, o, t := Octets(p), |Ethernet(p)|, |Ethernet(p)| + |Ip(p)|;
            && |data| == t + |Tcp(p)| + |p.payload| + |p.trailer|
            && data[..o] == Ethernet(p) && data[o..t] == Ip(p) && data[t..t + |Tcp(p)|] == Tcp(p)
            && data[t + |Tcp(p)|..t + |Tcp(p)| + |p.payload|] == p.payload
  {
    hide Ethernet, Ip, Tcp;
    FiveParts(Ethernet(p), Ip(p), Tcp(p), p.payload, p.trailer);
  }

  lemma OctetWithin(data: seq<byte>, at: nat, part: seq<byte>, k: nat)
    requires at + |part| <= |data| && data[at..at + |part|] == part && k < |part|
    ensures data[at + k] == part[k]
  {
    assert data[at + k] == data[at..at + |part|][k];
  }

  /** A field within a part stands where the part does. */
  lemma FieldWithin(data: seq<byte>, at: nat, part: seq<byte>, k: nat)
    requires at + |part| <= |data| && data[at..at + |part|] == part && k < |part|
    ensures data[at + k] == part[k]
    ensures k + 2 <= |part| ==> Be16(data, at + k) == Be16(part, k)
    ensures k + 4 <= |part| ==> Be32(data, at + k) == Be32(part, k) && data[at + k..at + k + 4] == part[k..k + 4]
  {
    OctetWithin(data, at, part, k);
    if k + 2 <= |part| {
      OctetWithin(data, at, part, k + 1);
    }
    if k + 4 <= |part| {
      OctetWithin(data, at, part, k + 2);
      OctetWithin(data, at, part, k + 3);
      Within(data, at, part, k, k + 4);
    }
  }

  lemma IpAt(p: Packet)
    requires Framed(p)
    ensures var data, o := Octets(p), |Ethernet(p)|;
            && o + 20 <= |data| && data[o] % 16 * 4 == |Ip(p)| && data[o + 9] == p.protocol
            && Be16(data, o + 2) == Total(p)
            && data[o + 12..o + 16] == p.source && data[o + 16..o + 20] == p.destination
  {
    Parts(p);
    IpFields(p);
    hide Octets, Ethernet, Ip, Tcp, Be16, Be32;
    var data, o := Octets(p), |Ethernet(p)|;
    FieldWithin(data, o, Ip(p), 0);
    FieldWithin(data, o, Ip(p), 2);
    FieldWithin(data, o, Ip(p), 9);
    FieldWithin(data, o, Ip(p), 12);
    FieldWithin(data, o, Ip(p), 16);
  }

  lemma TcpAt(p: Packet)
    requires Framed(p)
    ensures var data, t := Octets(p), |Ethernet(p)| + |Ip(p)|;
            && t + 20 <= |data| && Be16(data, t) == p.sport && Be16(data, t + 2) == p.dport
            && Be32(data, t + 4) == p.position && data[t + 12] / 16 * 4 == |Tcp(p)| && data[t + 13] == p.flags
            && t + |Tcp(p)| + |p.payload| <= |data|
            && data[t + |Tcp(p)|..t + |Tcp(p)| + |p.payload|] == p.payload
  {
    Parts(p);
    TcpFields(p);
    hide Octets, Ethernet, Ip, Tcp, Be16, Be32;
    var data, t := Octets(p), |Ethernet(p)| + |Ip(p)|;
    FieldWithin(data, t, Tcp(p), 0);
    FieldWithin(data, t, Tcp(p), 2);
    FieldWithin(data, t, Tcp(p), 4);
    FieldWithin(data, t, Tcp(p), 12);
    FieldWithin(data, t, Tcp(p), 13);
  }

  lemma EthernetAt(p: Packet)
    requires Framed(p)
    ensures var data, o := Octets(p), |Ethernet(p)|;
            && o <= |data| && (p.tag.Some? <==> Be16(data, 12) == 0x8100) && Be16(data, o - 2) == 0x0800
  {
    Parts(p);
    EthernetFields(p);
    hide Octets, Ethernet, Ip, Tcp, Be16;
    var data, e := Octets(p), Ethernet(p);
    assert data[0..|e|] == e;
    FieldWithin(data, 0, e, 12);
    FieldWithin(data, 0, e, |e| - 2);
  }

  /** Whatever its tags, options, padding, flags and ports, a TCP frame with port 102 on
      either side yields its payload, its SYN flag and its position; every other is skipped. */
  lemma PacketIsExtracted(number: nat, p: Packet)
    requires Framed(p)
    ensures Extract(Frame(number, Octets(p))) ==
            if p.protocol != 6 || (p.sport != 102 && p.dport != 102) then Skipped
            else
              Found(Segment(number, Key(p.source, p.sport, p.destination, p.dport), p.payload,
                            p.flags / 2 % 2 == 1, p.position))
  {
    EthernetAt(p);
    IpAt(p);
    TcpAt(p);
    hide Octets, Ip, Tcp, Be16, Be32;
    IpIsExtracted(number, Octets(p), |Ethernet(p)|, p);
  }

  lemma IpIsExtracted(number: nat, data: seq<byte>, o: nat, p: Packet)
    requires Framed(p) && o + 20 <= |data|
    requires data[o] % 16 * 4 == 20 + |p.ipOptions| && data[o + 9] == p.protocol && Be16(data, o + 2) == Total(p)
    requires data[o + 12..o + 16] == p.source && data[o + 16..o + 20] == p.destination
    requires var t := o + 20 + |p.ipOptions|;
             var start := t + 20 + |p.tcpOptions|;
             && start + |p.payload| <= |data| && Be16(data, t) == p.sport && Be16(data, t + 2) == p.dport
             && Be32(data, t + 4) == p.position && data[t + 12] / 16 * 4 == 20 + |p.tcpOptions|
             && data[t + 13] == p.flags && data[start..start + |p.payload|] == p.payload
    ensures ExtractIp(Frame(number, data), o) ==
            if p.protocol != 6 || (p.sport != 102 && p.dport != 102) then Skipped
            else
              Found(Segment(number, Key(p.source, p.sport, p.destination, p.dport), p.payload,
                            p.flags / 2 % 2 == 1, p.position))
  {
    hide Be16, Be32;
  }

  /** Frames of any other protocol are skipped, and only frames too short for a field that
      is looked at are malformed. */
  lemma ShortFrames(frame: Frame)
    ensures var data := frame.data;
            var tagged := |data| >= 14 && data[12] == 0x81 && data[13] == 0x00;
            var o := if tagged then 18 else 14;
            var internet := |data| >= o && data[o - 2] == 0x08 && data[o - 1] == 0x00;
            && (Extract(frame).Malformed? <==>
                  || |data| < o
                  || (internet && |data| < o + 10)
                  || (internet && data[o + 9] == 6 && |data| < o + data[o] % 16 * 4 + 14))
            && (|data| >= o && !internet ==> Extract(frame).Skipped?)
  {
  }

  // --- one file ---

  /** A captured record: a time, an original length, and the octets kept. */
  datatype Captured = Captured(seconds: u32, micros: u32, original: u32, data: seq<byte>)

  /** How a file ends: with fewer octets than a record header, or within a record. */
  datatype Ending = Rest(octets: seq<byte>) | Cut(record: Captured, kept: seq<byte>)

  predicate Fits(records: seq<Captured>, ending: Ending) {
    && (forall i :: 0 <= i < |records| ==> |records[i].data| < 0x1_0000_0000)
    && match ending
       case Rest(octets) => |octets| < 16
       case Cut(record, kept) => |kept| < |record.data| < 0x1_0000_0000
  }

  function Word(little: bool, n: u32): (s: seq<byte>)
    ensures |s| == 4
  {
    if little then L32(n) else B32(n)
  }

  function Head(little: bool, r: Captured): (s: seq<byte>)
    requires |r.data| < 0x1_0000_0000
    ensures |s| == 16
  {
    Word(little, r.seconds) + Word(little, r.micros) + Word(little, |r.data|) + Word(little, r.original)
  }

  function EndingOctets(little: bool, ending: Ending): seq<byte>
    requires Fits([], ending)
  {
    match ending
    case Rest(octets) => octets
    case Cut(record, kept) => Head(little, record) + kept
  }

  function Body(little: bool, records: seq<Captured>, ending: Ending): seq<byte>
    requires Fits(records, ending)
  {
    if records == [] then EndingOctets(little, ending)
    else Head(little, records[0]) + records[0].data + Body(little, records[1..], ending)
  }

  /** A file in either byte order: its magic number, 16 octets of version, time zone and
      limits, the Ethernet link type, and its records. */
  function File(little: bool, limits: seq<byte>, records: seq<Captured>, ending: Ending): seq<byte>
    requires |limits| == 16 && Fits(records, ending)
  {
    (if little then [0xd4, 0xc3, 0xb2, 0xa1] else [0xa1, 0xb2, 0xc3, 0xd4]) + limits + Word(little, 1)
    + Body(little, records, ending)
  }

  /** The frames of such a file, numbered from `number`; a record cut short keeps what it has. */
  function Expected(records: seq<Captured>, ending: Ending, number: nat): seq<Frame> {
    if records == [] then (match ending case Rest(_) => [] case Cut(_, kept) => [Frame(number, kept)])
    else [Frame(number, records[0].data)] + Expected(records[1..], ending, number + 1)
  }

  lemma WordRead(little: bool, data: seq<byte>, at: nat, n: u32)
    requires at + 4 <= |data| && data[at..at + 4] == Word(little, n)
    ensures U32At(little, data, at) == n
  {
    B32Inverse(n);
    hide B32, L32;
    var word := data[at..at + 4];
    assert forall k :: 0 <= k < 4 ==> data[at + k] == word[k];
  }

  lemma HeadRead(little: bool, before: seq<byte>, r: Captured, later: seq<byte>)
    requires |r.data| < 0x1_0000_0000
    ensures U32At(little, before + Head(little, r) + later, |before| + 8) == |r.data|
  {
    hide Word, U32At;
    var data, head := before + Head(little, r) + later, Head(little, r);
    PartAt(before, head, later);
    assert head[8..12] == Word(little, |r.data|);
    Within(data, |before|, head, 8, 12);
    WordRead(little, data, |before| + 8, |r.data|);
  }

  lemma {:induction false} FileIsRead(
    little: bool, before: seq<byte>, records: seq<Captured>, ending: Ending, number: nat)
    requires Fits(records, ending)
    ensures FramesFrom(little, before + Body(little, records, ending), |before|, number) ==
            Expected(records, ending, number)
    decreases |records|
  {
    if records == [] {
      hide FramesFrom;
      EndingIsRead(little, before, ending, number);
    } else {
      FitsTail(records, ending);
      BodySplits(little, before, records, ending);
      hide FramesFrom, Head, Fits, Body;
      var r, later := records[0], Body(little, records[1..], ending);
      RecordIsTaken(little, before, r, later, number);
      FileIsRead(little, before + Head(little, r) + r.data, records[1..], ending, number + 1);
    }
  }

  lemma BodySplits(little: bool, before: seq<byte>, records: seq<Captured>, ending: Ending)
    requires Fits(records, ending) && records != []
    ensures Fits(records[1..], ending)
    ensures before + Body(little, records, ending) ==
            before + Head(little, records[0]) + records[0].data + Body(little, records[1..], ending)
  {
    hide Head;
  }

  lemma FitsTail(records: seq<Captured>, ending: Ending)
    requires Fits(records, ending) && records != []
    ensures |records[0].data| < 0x1_0000_0000 && Fits(records[1..], ending)
  {
  }

  lemma RecordIsTaken(little: bool, before: seq<byte>, r: Captured, later: seq<byte>, number: nat)
    requires |r.data| < 0x1_0000_0000
    ensures var read := before + Head(little, r) + r.data;
            FramesFrom(little, read + later, |before|, number) ==
            [Frame(number, r.data)] + FramesFrom(little, read + later, |read|, number + 1)
  {
    hide Head, U32At;
    var data := before + Head(little, r) + r.data + later;
    HeadRead(little, before, r, r.data + later);
    assert data == before + Head(little, r) + (r.data + later);
    assert Slice(data, |before| + 16, |before| + 16 + |r.data|) == r.data;
  }

  lemma EndingIsRead(little: bool, before: seq<byte>, ending: Ending, number: nat)
    requires Fits([], ending)
    ensures FramesFrom(little, before + EndingOctets(little, ending), |before|, number) == Expected([], ending, number)
  {
    hide Head, U32At;
    match ending
    case Rest(_) =>
    case Cut(record, kept) =>
      var data := before + EndingOctets(little, ending);
      assert data == before + Head(little, record) + kept;
      HeadRead(little, before, record, kept);
      assert Slice(data, |before| + 16, |before| + 16 + |record.data|) == kept;
  }

  /** Every Ethernet capture, in either byte order and however it ends, is read as its
      records, numbered from one. */
  lemma AnyFileIsRead(little: bool, limits: seq<byte>, records: seq<Captured>, ending: Ending)
    requires |limits| == 16 && Fits(records, ending)
    ensures FramesOf(File(little, limits, records, ending)) == Some(Expected(records, ending, 1))
  {
    hide U32At, Word, FramesFrom, Body;
    var magic: seq<byte> := if little then [0xd4, 0xc3, 0xb2, 0xa1] else [0xa1, 0xb2, 0xc3, 0xd4];
    var before, body := magic + limits + Word(little, 1), Body(little, records, ending);
    var data := before + body;
    assert data[20..24] == Word(little, 1);
    WordRead(little, data, 20, 1);
    assert Slice(data, 0, 4) == magic;
    assert magic == MAGIC_LITTLE <==> little by { assert [0xd4, 0xc3][0] != [0xa1, 0xb2][0]; }
    FileIsRead(little, before, records, ending, 1);
  }

  /** Anything else is refused: another magic number, another link type, a short header. */
  lemma OtherFiles(data: seq<byte>)
    ensures FramesOf(data).Some? ==>
              && |data| >= 24
              && (data[..4] == [0xd4, 0xc3, 0xb2, 0xa1] || data[..4] == [0xa1, 0xb2, 0xc3, 0xd4])
              && data[20..24] == if data[0] == 0xd4 then [1, 0, 0, 0] else [0, 0, 0, 1]
  {
  }

  // --- the writer's own files ---

  /** The header of a written file, octet by octet. */
  lemma WrittenHeader()
    ensures FileHeader() ==
            [0xd4, 0xc3, 0xb2, 0xa1, 2, 0, 4, 0, 0, 0, 0, 0, 0, 0, 0, 0, 0xff, 0xff, 0, 0, 1, 0, 0, 0]
  {
    assert L32(0) == [0, 0, 0, 0] && L32(1) == [1, 0, 0, 0] && L32(65535) == [0xff, 0xff, 0, 0];
    hide L32;
  }

  lemma WrittenIp(index: nat, size: nat)
    requires index < 0x1_0000 && size <= 65495
    ensures var total := 40 + size;
            IpHeader(index, size) ==
            [0x45, 0, total / 256, total % 256, index / 256, index % 256, 0, 0, 64, 6, 0, 0, 127, 0, 0, 1, 127, 0, 0, 2]
  {
  }

  lemma WrittenTcp(index: nat)
    requires index <= 25535
    ensures var port := 40000 + index;
            TcpHeader(index) ==
            [port / 256, port % 256, 0, 102, 0, 0, 0, 1, 0, 0, 0, 1, 0x50, 0x18, 0xff, 0xff, 0, 0, 0, 0]
  {
  }

  /** The envelope of packet `index`, octet by octet. */
  lemma WrittenFrame(index: nat, payload: seq<byte>)
    requires index <= 25535 && |payload| <= 65495
    ensures var total, port := 40 + |payload|, 40000 + index;
            FrameBytes(index, payload) ==
            [0, 0, 0, 0, 0, 0, 0, 0, 0, 0, 0, 0] + [8, 0]
            + [0x45, 0, total / 256, total % 256, index / 256, index % 256, 0, 0, 64, 6, 0, 0]
            + [127, 0, 0, 1, 127, 0, 0, 2]
            + [port / 256, port % 256, 0, 102, 0, 0, 0, 1, 0, 0, 0, 1, 0x50, 0x18, 0xff, 0xff, 0, 0, 0, 0]
            + payload
  {
    assert Fill(12, 0) == [0, 0, 0, 0, 0, 0, 0, 0, 0, 0, 0, 0];
    WrittenIp(index, |payload|);
    WrittenTcp(index);
    hide IpHeader, TcpHeader, Fill;
  }

  /** A written record: its number as the seconds, no microseconds, its length twice,
      little-endian, and the frame. */
  lemma WrittenRecord(index: nat, payload: seq<byte>)
    requires index <= 25535 && |payload| <= 65495
    ensures var size := 54 + |payload|;
            Record(index, payload) ==
            [index % 256, index / 256, 0, 0, 0, 0, 0, 0]
            + [size % 256, size / 256 % 256, size / 65536, 0, size % 256, size / 256 % 256, size / 65536, 0]
            + FrameBytes(index, payload)
  {
    hide FrameBytes;
  }
}
