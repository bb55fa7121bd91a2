/** Classic pcap files holding Ethernet, IPv4 and TCP: the writer of synthetic captures,
    the reader, and the extraction of TCP segments. */
module Capture {
  import opened Bytes
  import opened Reassembly

  /** A Python slice: bounds beyond the end are clamped. */
  function Slice(s: seq<byte>, low: nat, high: nat): seq<byte> {
    var end := if high < |s| then high else |s|;
    if low <= end then s[low..end] else []
  }

  function Be32(s: seq<byte>, at: nat): u32
    requires at + 4 <= |s|
  {
    Be16(s, at) as int * 0x1_0000 + Be16(s, at + 2) as int
  }

  function Le32(s: seq<byte>, at: nat): u32
    requires at + 4 <= |s|
  {
    s[at] as int + 256 * s[at + 1] as int + 0x1_0000 * s[at + 2] as int + 0x100_0000 * s[at + 3] as int
  }

  /** `struct.pack("<I", n)`; `Le32` undoes it. */
  function L32(n: u32): (s: seq<byte>)
    ensures |s| == 4 && Le32(s, 0) == n
  {
    var low: u16, high: u16 := n % 0x1_0000, n / 0x1_0000;
    [low % 256, low / 256, high % 256, high / 256]
  }

  // --- writing ---

  const MAGIC_LITTLE: seq<byte> := [0xd4, 0xc3, 0xb2, 0xa1]
  const MAGIC_BIG: seq<byte> := [0xa1, 0xb2, 0xc3, 0xd4]

  /** The little-endian file header: version 2.4, snap length 65535, Ethernet. */
  function FileHeader(): (s: seq<byte>)
    ensures |s| == 24
  {
    MAGIC_LITTLE + [2, 0, 4, 0] + L32(0) + L32(0) + L32(65535) + L32(1)
  }

  /** The field widths of packet `index`: its number, its port and its total length. */
  predicate Writable(packets: seq<seq<byte>>) {
    |packets| <= 25536 && forall i :: 0 <= i < |packets| ==> |packets[i]| <= 65495
  }

  function IpHeader(index: nat, size: nat): (s: seq<byte>)
    requires index < 0x1_0000 && size <= 65495
    ensures |s| == 20
  {
    [0x45, 0] + U16(40 + size) + U16(index) + IpTail()
  }

  /** No fragmentation, TTL 64, TCP, no checksum, and the two loopback addresses. */
  function IpTail(): (s: seq<byte>)
    ensures |s| == 14
  {
    [0, 0, 64, 6, 0, 0, 127, 0, 0, 1, 127, 0, 0, 2]
  }

  /** Sequence 1, acknowledgement 1, a bare header, PSH and ACK, a full window. */
  function TcpTail(): (s: seq<byte>)
    ensures |s| == 16
  {
    [0, 0, 0, 1, 0, 0, 0, 1, 0x50, 0x18, 0xff, 0xff, 0, 0, 0, 0]
  }

  function TcpHeader(index: nat): (s: seq<byte>)
    requires index <= 25535
    ensures |s| == 20
  {
    U16(40000 + index) + U16(102) + TcpTail()
  }

  function FrameBytes(index: nat, payload: seq<byte>): (s: seq<byte>)
    requires index <= 25535 && |payload| <= 65495
    ensures |s| == 54 + |payload|
  {
    Fill(12, 0) + [8, 0] + IpHeader(index, |payload|) + TcpHeader(index) + payload
  }

  function Record(index: nat, payload: seq<byte>): (s: seq<byte>)
    requires index <= 25535 && |payload| <= 65495
    ensures |s| == 70 + |payload|
  {
    var frame := FrameBytes(index, payload);
    L32(index) + L32(0) + L32(|frame|) + L32(|frame|) + frame
  }

  /** Records `index..` of a capture. */
  function Records(packets: seq<seq<byte>>, index: nat): seq<byte>
    requires Writable(packets) && index <= |packets|
    decreases |packets| - index
  {
    if index == |packets| then [] else Record(index, packets[index]) + Records(packets, index + 1)
  }

  /** Fails exactly when a sixteen-bit field overflows. */
  method Write(packets: seq<seq<byte>>) returns (file: Option<seq<byte>>)
    ensures file.Some? <==> Writable(packets)
    ensures file.Some? ==> file.value == FileHeader() + Records(packets, 0)
  {
    hide Record, L32;
    var result := FileHeader();
    for index := 0 to |packets|
      invariant index <= 25536 && forall i :: 0 <= i < index ==> |packets[i]| <= 65495
      invariant Writable(packets) ==> result + Records(packets, index) == FileHeader() + Records(packets, 0)
    {
      var payload := packets[index];
      if 40 + |payload| > 65535 || 40000 + index > 65535 {
        return None;
      }
      if Writable(packets) {
        assert result + Records(packets, index) == (result + Record(index, payload)) + Records(packets, index + 1);
      }
      result := result + Record(index, payload);
    }
    return Some(result);
  }

  // --- reading ---

  datatype Frame = Frame(number: nat, data: seq<byte>)

  function U32At(little: bool, s: seq<byte>, at: nat): u32
    requires at + 4 <= |s|
  {
    if little then Le32(s, at) else Be32(s, at)
  }

  /** The records from `offset` on, numbered from `number`. */
  function FramesFrom(little: bool, data: seq<byte>, offset: nat, number: nat): seq<Frame>
    decreases |data| - offset
  {
    if offset + 16 > |data| then []
    else
      var caplen := U32At(little, data, offset + 8);
      [Frame(number, Slice(data, offset + 16, offset + 16 + caplen))]
      + FramesFrom(little, data, offset + 16 + caplen, number + 1)
  }

  lemma FramesStep(little: bool, data: seq<byte>, offset: nat, number: nat, taken: seq<Frame>)
    ensures taken + FramesFrom(little, data, offset, number) ==
            if offset + 16 > |data| then taken
            else
              var end := offset + 16 + U32At(little, data, offset + 8);
              taken + [Frame(number, Slice(data, offset + 16, end))] + FramesFrom(little, data, end, number + 1)
  {
    hide U32At, Slice;
  }

  function FramesOf(data: seq<byte>): Option<seq<Frame>> {
    var magic := Slice(data, 0, 4);
    if magic !in [MAGIC_LITTLE, MAGIC_BIG] || |data| < 24 then None
    else if U32At(magic == MAGIC_LITTLE, data, 20) != 1 then None
    else Some(FramesFrom(magic == MAGIC_LITTLE, data, 24, 1))
  }

  method ReadPcap(data: seq<byte>) returns (frames: Option<seq<Frame>>)
    ensures frames == FramesOf(data)
  {
    hide U32At, FramesFrom;
    var magic := Slice(data, 0, 4);
    if magic !in [MAGIC_LITTLE, MAGIC_BIG] || |data| < 24 {
      return None;
    }
    var little := magic == MAGIC_LITTLE;
    if U32At(little, data, 20) != 1 {
      return None;
    }
    hide Slice;
    var taken: seq<Frame>, offset: nat, number: nat := [], 24, 0;
    while offset + 16 <= |data|
      invariant FramesFrom(little, data, 24, 1) == taken + FramesFrom(little, data, offset, number + 1)
      decreases |data| - offset
    {
      FramesStep(little, data, offset, number + 1, taken);
      var caplen := U32At(little, data, offset + 8);
      number := number + 1;
      taken := taken + [Frame(number, Slice(data, offset + 16, offset + 16 + caplen))];
      offset := offset + 16 + caplen;
    }
    FramesStep(little, data, offset, number + 1, taken);
    return Some(taken);
  }

  datatype Extracted = Malformed | Skipped | Found(segment: Segment)

  /** The TCP segment of one Ethernet frame: malformed when the source indexes past its
      end, skipped when it is not IPv4, TCP, or on port 102. */
  function Extract(frame: Frame): Extracted {
    var data := frame.data;
    if |data| < 14 then Malformed
    else
      var tagged := Be16(data, 12) == 0x8100;
      if tagged && |data| < 18 then Malformed
      else
        var ethertype := if tagged then Be16(data, 16) else Be16(data, 12);
        if ethertype != 0x0800 then Skipped else ExtractIp(frame, if tagged then 18 else 14)
  }

  function ExtractIp(frame: Frame, offset: nat): Extracted {
    var data := frame.data;
    if |data| < offset + 10 then Malformed
    else if data[offset + 9] != 6 then Skipped
    else
      var tcp := offset + data[offset] % 16 * 4;
      if |data| < tcp + 14 then Malformed
      else
        var sport, dport := Be16(data, tcp), Be16(data, tcp + 2);
        var payload := Slice(data, tcp + data[tcp + 12] / 16 * 4, offset + Be16(data, offset + 2));
        if sport != 102 && dport != 102 then Skipped
        else
          Found(Segment(
            frame.number,
            Key(Slice(data, offset + 12, offset + 16), sport, Slice(data, offset + 16, offset + 20), dport),
            payload,
            data[tcp + 13] / 2 % 2 == 1,
            Be32(data, tcp + 4)))
  }

  /** Every segment on port 102, in capture order; none when a frame is malformed. */
  function SegmentsOf(frames: seq<Frame>): Option<seq<Segment>> {
    if frames == [] then Some([])
    else
      match Extract(frames[|frames| - 1])
      case Malformed => None
      case Skipped => SegmentsOf(frames[..|frames| - 1])
      case Found(segment) =>
        match SegmentsOf(frames[..|frames| - 1])
        case None => None
        case Some(before) => Some(before + [segment])
  }

  method TcpPayloads(frames: seq<Frame>) returns (segments: Option<seq<Segment>>)
    ensures segments == SegmentsOf(frames)
  {
    hide Extract;
    var out: seq<Segment> := [];
    assert frames[..0] == [];
    for n := 0 to |frames|
      invariant SegmentsOf(frames[..n]) == Some(out)
    {
      assert frames[..n + 1][..n] == frames[..n];
      var extracted := Extract(frames[n]);
      if extracted.Malformed? {
        MalformedStays(frames, n + 1);
        return None;
      }
      if extracted.Found? {
        out := out + [extracted.segment];
      }
    }
    assert frames[..|frames|] == frames;
    return Some(out);
  }

  lemma {:induction false} MalformedStays(frames: seq<Frame>, n: nat)
    requires n <= |frames| && SegmentsOf(frames[..n]).None?
    ensures SegmentsOf(frames).None?
    decreases |frames|
  {
    if n < |frames| {
      assert frames[..|frames| - 1][..n] == frames[..n];
      MalformedStays(frames[..|frames| - 1], n);
    } else {
      assert frames[..n] == frames;
    }
  }

  // --- the round trip ---

  function FrameAt(packets: seq<seq<byte>>, i: nat): Frame
    requires Writable(packets) && i < |packets|
  {
    Frame(i + 1, FrameBytes(i, packets[i]))
  }

  function WrittenFrames(packets: seq<seq<byte>>, index: nat): (frames: seq<Frame>)
    requires Writable(packets) && index <= |packets|
    ensures |frames| == |packets| - index
    ensures forall i :: 0 <= i < |frames| ==> frames[i] == FrameAt(packets, index + i)
  {
    seq(|packets| - index, i requires 0 <= i < |packets| - index => FrameAt(packets, index + i))
  }

  lemma RecordIsRead(before: seq<byte>, index: nat, payload: seq<byte>, later: seq<byte>)
    requires index <= 25535 && |payload| <= 65495
    ensures var data := before + Record(index, payload) + later;
            && U32At(true, data, |before| + 8) == 54 + |payload|
            && Slice(data, |before| + 16, |before| + 70 + |payload|) == FrameBytes(index, payload)
  {
    hide FrameBytes, L32;
    var frame := FrameBytes(index, payload);
    var data := before + Record(index, payload) + later;
    var record := Record(index, payload);
    assert record[8..12] == L32(|frame|);
    assert data[|before| + 8..|before| + 12] == record[8..12];
    assert forall k :: 0 <= k < 4 ==> data[|before| + 8 + k] == L32(|frame|)[k];
    assert record[16..] == frame;
    assert data[|before| + 16..|before| + 70 + |payload|] == record[16..];
  }

  lemma {:induction false} FramesAreRead(packets: seq<seq<byte>>, before: seq<byte>, index: nat)
    requires Writable(packets) && index <= |packets|
    ensures FramesFrom(true, before + Records(packets, index), |before|, index + 1) == WrittenFrames(packets, index)
    decreases |packets| - index
  {
    hide Record, FrameBytes, U32At, Slice;
    var data := before + Records(packets, index);
    if index == |packets| {
    } else {
      var record := Record(index, packets[index]);
      RecordIsRead(before, index, packets[index], Records(packets, index + 1));
      assert data == (before + record) + Records(packets, index + 1);
      FramesAreRead(packets, before + record, index + 1);
      assert WrittenFrames(packets, index) == [FrameAt(packets, index)] + WrittenFrames(packets, index + 1);
    }
  }

  function ClientKey(index: nat): Key
    requires index <= 25535
  {
    Key([127, 0, 0, 1], 40000 + index, [127, 0, 0, 2], 102)
  }

  function WrittenSegment(packets: seq<seq<byte>>, i: nat): Segment
    requires Writable(packets) && i < |packets|
  {
    Segment(i + 1, ClientKey(i), packets[i], false, 1)
  }

  function WrittenSegments(packets: seq<seq<byte>>): (segments: seq<Segment>)
    requires Writable(packets)
    ensures |segments| == |packets|
    ensures forall i :: 0 <= i < |segments| ==> segments[i] == WrittenSegment(packets, i)
  {
    seq(|packets|, i requires 0 <= i < |packets| => WrittenSegment(packets, i))
  }

  lemma FrameParts(index: nat, payload: seq<byte>)
    requires index <= 25535 && |payload| <= 65495
    ensures var data := FrameBytes(index, payload);
            && data[12..14] == [8, 0] && data[14..34] == IpHeader(index, |payload|)
            && data[34..54] == TcpHeader(index) && data[54..] == payload
  {
    hide IpHeader, TcpHeader;
  }

  lemma IpFields(index: nat, size: nat)
    requires index <= 25535 && size <= 65495
    ensures var ip := IpHeader(index, size);
            && ip[0] == 0x45 && ip[9] == 6 && ip[2..4] == U16(40 + size)
            && ip[12..16] == [127, 0, 0, 1] && ip[16..20] == [127, 0, 0, 2]
  {
    hide U16;
    var ip, tail := IpHeader(index, size), IpTail();
    assert ip[6..] == tail;
    assert ip[9] == ip[6..][3];
    Within(ip, 6, tail, 6, 10);
    Within(ip, 6, tail, 10, 14);
    assert tail[6..10] == [127, 0, 0, 1] && tail[10..14] == [127, 0, 0, 2];
    hide IpTail;
    assert ip[2..4] == U16(40 + size);
  }

  lemma TcpFields(index: nat)
    requires index <= 25535
    ensures var tcp := TcpHeader(index);
            && tcp[0..2] == U16(40000 + index) && tcp[2..4] == U16(102) && tcp[4..8] == [0, 0, 0, 1]
            && tcp[12] == 0x50 && tcp[13] == 0x18
  {
    hide U16;
    var ports, rest := U16(40000 + index) + U16(102), TcpTail();
    assert TcpHeader(index) == ports + rest;
    assert rest[0] == 0 && rest[1] == 0 && rest[2] == 0 && rest[3] == 1;
    assert (ports + rest)[4..8] == rest[0..4] == [0, 0, 0, 1];
  }

  lemma FrameFields(index: nat, payload: seq<byte>)
    requires index <= 25535 && |payload| <= 65495
    ensures var data := FrameBytes(index, payload);
            && Be16(data, 12) == 0x0800 && data[14] == 0x45 && data[23] == 6 && Be16(data, 16) == 40 + |payload|
            && data[26..30] == [127, 0, 0, 1] && data[30..34] == [127, 0, 0, 2]
            && Be16(data, 34) == 40000 + index && Be16(data, 36) == 102 && Be32(data, 38) == 1
            && data[46] == 0x50 && data[47] == 0x18
  {
    var data, ip, tcp := FrameBytes(index, payload), IpHeader(index, |payload|), TcpHeader(index);
    FrameParts(index, payload);
    IpFields(index, |payload|);
    TcpFields(index);
    hide FrameBytes, IpHeader, TcpHeader;
    assert data[14] == data[14..34][0] && data[23] == data[14..34][9];
    assert data[46] == data[34..54][12] && data[47] == data[34..54][13];
    Within(data, 14, ip, 2, 4);
    Within(data, 14, ip, 12, 16);
    Within(data, 14, ip, 16, 20);
    Within(data, 34, tcp, 0, 2);
    Within(data, 34, tcp, 2, 4);
    Within(data, 34, tcp, 4, 8);
    Field(data, 12, 0x0800);
    Field(data, 16, 40 + |payload|);
    Field(data, 34, 40000 + index);
    Field(data, 36, 102);
    assert U16(0) == [0, 0] && U16(1) == [0, 1];
    assert data[38..40] == data[38..42][..2] && data[40..42] == data[38..42][2..];
    Field(data, 38, 0);
    Field(data, 40, 1);
  }

  lemma FieldsAreExtracted(frame: Frame, index: nat, size: nat)
    requires index <= 25535 && size <= 65495 && |frame.data| == 54 + size
    requires Be16(frame.data, 12) == 0x0800 && Be16(frame.data, 16) == 40 + size
    requires frame.data[14] == 0x45 && frame.data[23] == 6 && frame.data[46] == 0x50 && frame.data[47] == 0x18
    requires frame.data[26..30] == [127, 0, 0, 1] && frame.data[30..34] == [127, 0, 0, 2]
    requires Be16(frame.data, 34) == 40000 + index && Be16(frame.data, 36) == 102 && Be32(frame.data, 38) == 1
    ensures Extract(frame) == Found(Segment(frame.number, ClientKey(index), frame.data[54..], false, 1))
  {
    hide Be16, Be32;
    assert frame.data[54..54 + size] == frame.data[54..];
  }

  lemma FrameIsExtracted(number: nat, index: nat, payload: seq<byte>)
    requires index <= 25535 && |payload| <= 65495
    ensures Extract(Frame(number, FrameBytes(index, payload))) ==
            Found(Segment(number, ClientKey(index), payload, false, 1))
  {
    FrameParts(index, payload);
    FrameFields(index, payload);
    hide FrameBytes, Extract, Be16, Be32;
    FieldsAreExtracted(Frame(number, FrameBytes(index, payload)), index, |payload|);
  }

  lemma {:induction false} SegmentsAreExtracted(packets: seq<seq<byte>>, n: nat)
    requires Writable(packets) && n <= |packets|
    ensures SegmentsOf(WrittenFrames(packets, 0)[..n]) == Some(WrittenSegments(packets)[..n])
  {
    hide Extract, FrameBytes;
    var frames, segments := WrittenFrames(packets, 0), WrittenSegments(packets);
    if n == 0 {
    } else {
      SegmentsAreExtracted(packets, n - 1);
      FrameIsExtracted(n, n - 1, packets[n - 1]);
      assert frames[..n][..n - 1] == frames[..n - 1];
      assert segments[..n] == segments[..n - 1] + [segments[n - 1]];
    }
  }

  /** Reading a written capture back recovers every payload, in order, in frame 1..n. */
  lemma CaptureRoundTrip(packets: seq<seq<byte>>)
    requires Writable(packets)
    ensures var frames := FramesOf(FileHeader() + Records(packets, 0));
            && frames == Some(WrittenFrames(packets, 0))
            && SegmentsOf(frames.value) == Some(WrittenSegments(packets))
  {
    hide Records, FileHeader, U32At, Slice, FramesFrom, WrittenFrames, SegmentsOf, WrittenSegments;
    var data := FileHeader() + Records(packets, 0);
    HeaderIsRead(Records(packets, 0));
    FramesAreRead(packets, FileHeader(), 0);
    SegmentsAreExtracted(packets, |packets|);
    assert WrittenFrames(packets, 0)[..|packets|] == WrittenFrames(packets, 0);
    assert WrittenSegments(packets)[..|packets|] == WrittenSegments(packets);
  }

  lemma HeaderIsRead(later: seq<byte>)
    ensures var data := FileHeader() + later;
            Slice(data, 0, 4) == MAGIC_LITTLE && U32At(true, data, 20) == 1
  {
    var data := FileHeader() + later;
    assert data[0..4] == MAGIC_LITTLE;
    assert data[20..24] == L32(1);
    assert forall k :: 0 <= k < 4 ==> data[20 + k] == data[20..24][k];
  }

  // --- a whole capture of S7 PDUs ---

  /** `wrap`: one PDU in its own final data TPDU. */
  function Wrapped(pdus: seq<seq<byte>>): (packets: seq<seq<byte>>)
    requires forall i :: 0 <= i < |pdus| ==> |pdus[i]| <= 65488
    ensures Writable(packets) <==> |pdus| <= 25536
    ensures |packets| == |pdus| && forall i :: 0 <= i < |pdus| ==> packets[i] == FrameOf(Data(pdus[i], true))
  {
    seq(|pdus|, i requires 0 <= i < |pdus| => FrameOf(Data(pdus[i], true)))
  }

  function ClientMessages(pdus: seq<seq<byte>>): (messages: seq<Message>)
    ensures |messages| == |pdus|
    ensures forall i :: 0 <= i < |messages| ==> messages[i] == Message(i + 1, true, pdus[i])
  {
    seq(|pdus|, i requires 0 <= i < |pdus| => Message(i + 1, true, pdus[i]))
  }

  lemma {:induction false} EachOwnStream(packets: seq<seq<byte>>, n: nat, i: nat)
    requires Writable(packets) && n <= |packets| && i < |packets|
    ensures TrackOf(WrittenSegments(packets)[..n], ClientKey(i)).stream == if i < n then packets[i] else []
    ensures n <= i ==> TrackOf(WrittenSegments(packets)[..n], ClientKey(i)).expected == None
  {
    var segments := WrittenSegments(packets);
    if n == 0 {
    } else {
      var last := WrittenSegment(packets, n - 1);
      assert segments[..n] == segments[..n - 1] + [last];
      EachOwnStream(packets, n - 1, i);
      TrackSnoc(segments[..n - 1], last, ClientKey(i));
      hide TrackOf, WrittenSegments;
      if n - 1 == i {
        FirstSegment(TrackOf(segments[..n - 1], ClientKey(i)), last);
      } else {
        assert last.key.sport != ClientKey(i).sport;
      }
    }
  }

  lemma FirstSegment(track: Track, segment: Segment)
    requires track == Track(None, []) && !segment.syn
    ensures Accept(track, segment).stream == segment.payload
  {
    assert [] + segment.payload == segment.payload;
  }

  lemma OnePdu(pdu: seq<byte>)
    requires |pdu| <= 65488
    ensures Drain(FrameOf(Data(pdu, true)), []) == Some(Drained([], [], [pdu]))
  {
    var frame := FrameOf(Data(pdu, true));
    FrameIsTaken(Data(pdu, true), [], []);
    assert FrameLength([]).None?;
    hide FrameOf, TakeFrame, FrameLength;
    assert frame + [] == frame && frame[..|frame|] == frame && frame[|frame|..] == [];
    assert Drain([], []) == Some(Drained([], [], []));
    assert [] + pdu == pdu && [pdu] + [] == [pdu];
  }

  lemma EmptyStream()
    ensures Drain([], []) == Some(Drained([], [], [])) && PdusOf([]) == []
  {
    assert FrameLength([]).None?;
  }

  lemma OwnPdu(pdus: seq<seq<byte>>, i: nat)
    requires |pdus| <= 25536 && i < |pdus| && forall i :: 0 <= i < |pdus| ==> |pdus[i]| <= 65488
    ensures var segments := WrittenSegments(Wrapped(pdus));
            && PdusOf(TrackOf(segments[..i], ClientKey(i)).stream) == []
            && PdusOf(TrackOf(segments[..i + 1], ClientKey(i)).stream) == [pdus[i]]
  {
    hide TrackOf, Drain, FrameOf;
    EachOwnStream(Wrapped(pdus), i, i);
    EachOwnStream(Wrapped(pdus), i + 1, i);
    OnePdu(pdus[i]);
    EmptyStream();
  }

  /** Segment `i` brings one PDU on a direction that had none. */
  predicate BringsOne(segments: seq<Segment>, pdus: seq<seq<byte>>, i: nat)
    requires i < |segments| == |pdus|
  {
    && segments[i].key.dport == 102 && segments[i].number == i + 1
    && PdusOf(TrackOf(segments[..i], segments[i].key).stream) == []
    && PdusOf(TrackOf(segments[..i + 1], segments[i].key).stream) == [pdus[i]]
  }

  lemma EmitOne(segments: seq<Segment>, pdus: seq<seq<byte>>, i: nat)
    requires i < |segments| == |pdus| && BringsOne(segments, pdus, i)
    ensures MessagesOf(Emitted(segments[..i + 1])) ==
            MessagesOf(Emitted(segments[..i])) + [Message(i + 1, true, pdus[i])]
  {
    hide Emitted, TrackOf, PdusOf;
    var last := segments[i];
    assert segments[..i + 1] == segments[..i] + [last];
    EmittedSnoc(segments[..i], last, [], [pdus[i]]);
    assert MessagesOf(Tag(last.number, last.key, [pdus[i]])) == [Message(last.number, true, pdus[i])];
  }

  lemma NothingEmitted(segments: seq<Segment>)
    ensures MessagesOf(Emitted(segments[..0])) == []
  {
    assert segments[..0] == [];
  }

  lemma {:induction false} AllEmitted(segments: seq<Segment>, pdus: seq<seq<byte>>, n: nat)
    requires n <= |segments| == |pdus| && forall i :: 0 <= i < n ==> BringsOne(segments, pdus, i)
    ensures MessagesOf(Emitted(segments[..n])) == ClientMessages(pdus)[..n]
  {
    hide *;
    if n > 0 {
      AllEmitted(segments, pdus, n - 1);
      EmitOne(segments, pdus, n - 1);
      assert ClientMessages(pdus)[..n] == ClientMessages(pdus)[..n - 1] + [ClientMessages(pdus)[n - 1]];
    } else {
      NothingEmitted(segments);
    }
  }

  lemma WrappedAreEmitted(pdus: seq<seq<byte>>)
    requires |pdus| <= 25536 && forall i :: 0 <= i < |pdus| ==> |pdus[i]| <= 65488
    ensures MessagesOf(Emitted(WrittenSegments(Wrapped(pdus)))) == ClientMessages(pdus)
  {
    hide Emitted, TrackOf, PdusOf, MessagesOf, FrameOf;
    var segments := WrittenSegments(Wrapped(pdus));
    forall i | 0 <= i < |pdus| ensures BringsOne(segments, pdus, i) {
      OwnPdu(pdus, i);
    }
    AllEmitted(segments, pdus, |pdus|);
    assert segments[..|pdus|] == segments && ClientMessages(pdus)[..|pdus|] == ClientMessages(pdus);
  }

  /** No segment was written on any other direction. */
  lemma {:induction false} OtherStream(packets: seq<seq<byte>>, n: nat, key: Key)
    requires Writable(packets) && n <= |packets| && forall i :: 0 <= i < |packets| ==> ClientKey(i) != key
    ensures TrackOf(WrittenSegments(packets)[..n], key) == Track(None, [])
  {
    var segments := WrittenSegments(packets);
    if n == 0 {
      assert segments[..0] == [];
    } else {
      assert segments[..n] == segments[..n - 1] + [WrittenSegment(packets, n - 1)];
      OtherStream(packets, n - 1, key);
      TrackSnoc(segments[..n - 1], WrittenSegment(packets, n - 1), key);
    }
  }

  /** Every direction of such a capture parses. */
  lemma WrappedParse(pdus: seq<seq<byte>>)
    requires |pdus| <= 25536 && forall i :: 0 <= i < |pdus| ==> |pdus[i]| <= 65488
    ensures !Broken(WrittenSegments(Wrapped(pdus)))
  {
    hide TrackOf, Drain, FrameOf;
    var packets := Wrapped(pdus);
    var segments := WrittenSegments(packets);
    assert segments[..|packets|] == segments;
    forall key: Key ensures Parses(segments, key) {
      if i :| 0 <= i < |packets| && ClientKey(i) == key {
        EachOwnStream(packets, |packets|, i);
        OnePdu(pdus[i]);
      } else {
        OtherStream(packets, |packets|, key);
        EmptyStream();
      }
    }
  }

  /** From PDUs to a capture file and back: the reassembler returns each written PDU once,
      from the client, in the frame that carried it. */
  lemma CaptureEndToEnd(pdus: seq<seq<byte>>)
    requires |pdus| <= 25536 && forall i :: 0 <= i < |pdus| ==> |pdus[i]| <= 65488
    ensures var frames := FramesOf(FileHeader() + Records(Wrapped(pdus), 0));
            && frames.Some? && SegmentsOf(frames.value).Some?
            && !Broken(SegmentsOf(frames.value).value)
            && MessagesOf(Emitted(SegmentsOf(frames.value).value)) == ClientMessages(pdus)
  {
    hide FramesOf, SegmentsOf, Records, Emitted, MessagesOf, Broken;
    CaptureRoundTrip(Wrapped(pdus));
    WrappedParse(pdus);
    WrappedAreEmitted(pdus);
  }
}
