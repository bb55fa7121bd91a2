/** The strict corpus oracle: an independent request checker and an independent
    multi-item response decoder, related to the encoders and to `Response`. */
module Multi {
  import opened Bytes
  import opened Wire
  import opened Progress
  import opened Response

  function HeaderSize(kind: byte): nat { if kind == 3 then 12 else 10 }

  /** The parameter and data sections, or none when the header is refused. */
  function Sections(packet: seq<byte>, kind: byte, reference: u16): Option<(seq<byte>, seq<byte>)> {
    var size := HeaderSize(kind);
    if |packet| < size || packet[..4] != [0x32, kind, 0, 0] then None
    else
      var parameterSize, dataSize := Be16(packet, 6) as int, Be16(packet, 8) as int;
      if Be16(packet, 4) != reference || |packet| != size + parameterSize + dataSize then None
      else if kind == 3 && packet[10..12] != [0, 0] then None
      else Some((packet[size..size + parameterSize], packet[size + parameterSize..]))
  }

  lemma SectionsOfPacket(kind: byte, reference: u16, parameters: seq<byte>, data: seq<byte>)
    requires |parameters| < 0x1_0000 && |data| < 0x1_0000
    ensures Sections(Packet(kind, reference, parameters, data), kind, reference) == Some((parameters, data))
  {
    var p := Packet(kind, reference, parameters, data);
    var size := HeaderSize(kind);
    assert p[..4] == [0x32, kind, 0, 0];
    assert p[4..6] == U16(reference) && p[6..8] == U16(|parameters|) && p[8..10] == U16(|data|);
    assert kind == 3 ==> p[10..12] == [0, 0];
    assert p[size..size + |parameters|] == parameters;
    assert p[size + |parameters|..] == data;
  }

  lemma PacketOfSections(packet: seq<byte>, kind: byte, reference: u16)
    requires Sections(packet, kind, reference).Some?
    ensures var (parameters, data) := Sections(packet, kind, reference).value;
            && |parameters| < 0x1_0000 && |data| < 0x1_0000
            && packet == Packet(kind, reference, parameters, data)
  {
    U16Inverse(packet, 4);
    U16Inverse(packet, 6);
    U16Inverse(packet, 8);
    var size := HeaderSize(kind);
    var (parameters, data) := Sections(packet, kind, reference).value;
    assert packet[..10] == [0x32, kind, 0, 0] + U16(reference) + U16(|parameters|) + U16(|data|);
    assert packet == packet[..10] + packet[10..size] + parameters + data;
  }

  /** One write record as the checker wants it: code 0, octets, of the right size. */
  predicate WritesRange(item: Item, range: Range) {
    item.code == 0 && item.transport == 4 && |item.content| == range.count
  }

  function Writing(ranges: seq<Range>): (nat, Item) -> bool {
    (i: nat, item: Item) => i < |ranges| && WritesRange(item, ranges[i])
  }

  function WritesOf(ranges: seq<Range>, data: seq<byte>, index: nat, offset: nat): Option<seq<Item>>
    requires index <= |ranges| && offset <= |data|
  {
    ParseItems(|ranges|, Writing(ranges), data, index, offset)
  }

  /** What the checker accepts: the request's own parameters, no data on a read, and
      well-shaped write records, whose content and padding it does not look at. */
  predicate RequestChecks(write: bool, reference: u16, ranges: seq<Range>, pdu: seq<byte>) {
    match Sections(pdu, 1, reference)
    case None => false
    case Some((parameters, data)) =>
      && |ranges| < 256
      && parameters == [FunctionCode(write), |ranges|] + Addresses(ranges)
      && if write then WritesOf(ranges, data, 0, 0).Some? else data == []
  }

  method CheckAddresses(ranges: seq<Range>, parameters: seq<byte>) returns (ok: bool)
    requires |parameters| == 2 + 12 * |ranges|
    ensures ok <==> parameters[2..] == Addresses(ranges)
  {
    for index := 0 to |ranges|
      invariant forall i :: 0 <= i < index ==> parameters[2 + i * 12..14 + i * 12] == Address(ranges[i])
    {
      var address := parameters[2 + index * 12..14 + index * 12];
      if address != Address(ranges[index]) {
        AddressesAt(ranges, index);
        assert parameters[2..][12 * index..12 * index + 12] == address;
        return false;
      }
    }
    forall i | 0 <= i < |ranges| ensures parameters[2..][12 * i..12 * i + 12] == Address(ranges[i]) {
      assert parameters[2..][12 * i..12 * i + 12] == parameters[2 + i * 12..14 + i * 12];
    }
    AddressesTile(ranges, parameters[2..]);
    return true;
  }

  lemma {:induction false} AddressesTile(ranges: seq<Range>, s: seq<byte>)
    requires |s| == 12 * |ranges|
    requires forall i :: 0 <= i < |ranges| ==> s[12 * i..12 * i + 12] == Address(ranges[i])
    ensures s == Addresses(ranges)
  {
    if ranges == [] {
    } else {
      assert s[12 * 0..12 * 0 + 12] == Address(ranges[0]);
      forall i | 0 <= i < |ranges[1..]|
        ensures s[12..][12 * i..12 * i + 12] == Address(ranges[1..][i])
      {
        assert s[12..][12 * i..12 * i + 12] == s[12 * (i + 1)..12 * (i + 1) + 12];
      }
      AddressesTile(ranges[1..], s[12..]);
      assert s == s[..12] + s[12..];
    }
  }

  method CheckWrites(ranges: seq<Range>, data: seq<byte>) returns (ok: bool)
    ensures ok <==> WritesOf(ranges, data, 0, 0).Some?
  {
    hide WritesOf, ParseItem, WritesRange;
    var offset: nat := 0;
    for index := 0 to |ranges|
      invariant offset <= |data| ==>
                  (WritesOf(ranges, data, 0, 0).Some? <==> WritesOf(ranges, data, index, offset).Some?)
      invariant offset > |data| ==> WritesOf(ranges, data, 0, 0).None?
    {
      if offset <= |data| {
        RecordChecks(ranges[index], data, offset, index + 1 < |ranges|);
        WritesStep(ranges, data, index, offset);
      }
      var size: nat := ranges[index].count;
      if size * 8 > 65535 || offset + 4 > |data| || data[offset..offset + 4] != [0, 4] + U16(size * 8) {
        return false;
      }
      offset := offset + 4 + size;
      if index + 1 < |ranges| && size % 2 == 1 {
        offset := offset + 1;
      }
    }
    if offset <= |data| {
      WritesEnd(ranges, data, offset);
    }
    return offset == |data|;
  }

  /** Comparing the four header octets is parsing the record and checking its fields. */
  lemma WritesStep(ranges: seq<Range>, data: seq<byte>, index: nat, offset: nat)
    requires index < |ranges| && offset <= |data|
    ensures var head := ParseItem(data, offset, index + 1 < |ranges|);
            WritesOf(ranges, data, index, offset).Some? <==>
            && head.Some? && WritesRange(head.value.0, ranges[index])
            && WritesOf(ranges, data, index + 1, head.value.1).Some?
  {
    hide ParseItem, WritesRange;
  }

  lemma WritesEnd(ranges: seq<Range>, data: seq<byte>, offset: nat)
    requires offset <= |data|
    ensures WritesOf(ranges, data, |ranges|, offset) == if offset == |data| then Some([]) else None
  {
  }

  lemma RecordChecks(range: Range, data: seq<byte>, offset: nat, more: bool)
    requires offset <= |data|
    ensures var size: nat, head := range.count, ParseItem(data, offset, more);
            var end := offset + 4 + size + (if more then size % 2 else 0);
            head.Some? && WritesRange(head.value.0, range) <==>
            && size * 8 <= 65535 && offset + 4 <= |data| && data[offset..offset + 4] == [0, 4] + U16(size * 8)
            && end <= |data|
    ensures var size: nat, head := range.count, ParseItem(data, offset, more);
            head.Some? && WritesRange(head.value.0, range) ==>
              head.value.1 == offset + 4 + size + (if more then size % 2 else 0)
  {
    if offset + 4 <= |data| {
      var h := data[offset..offset + 4];
      U16Inverse(data, offset + 2);
      assert h == [data[offset], data[offset + 1]] + U16(Be16(data, offset + 2));
      var size: nat := range.count;
      if size * 8 <= 65535 {
        var g := [0, 4] + U16(size * 8);
        assert h == g ==> h[0] == g[0] && h[1] == g[1] && h[2..] == g[2..];
        assert h[2..] == U16(Be16(data, offset + 2)) && g[2..] == U16(size * 8);
      }
    }
  }

  method CheckRequest(write: bool, reference: u16, ranges: seq<Range>, pdu: seq<byte>) returns (ok: bool)
    ensures ok <==> RequestChecks(write, reference, ranges, pdu)
  {
    var sections := Sections(pdu, 1, reference);
    if sections.None? {
      return false;
    }
    var (parameters, data) := sections.value;
    if |ranges| > 255 || |parameters| != 2 + 12 * |ranges| || parameters[..2] != [FunctionCode(write), |ranges|] {
      return false;
    }
    assert parameters == parameters[..2] + parameters[2..];
    var addressed := CheckAddresses(ranges, parameters);
    if !addressed {
      return false;
    }
    if !write {
      return data == [];
    }
    ok := CheckWrites(ranges, data);
  }

  lemma EncodedWritesParse(ranges: seq<Range>)
    requires forall i :: 0 <= i < |ranges| ==> Encodable(ranges[i], true)
    ensures WritesOf(ranges, Layout(WriteItems(ranges)), 0, 0).Some?
  {
    hide Layout;
    var items := WriteItems(ranges);
    assert Layout(items)[0..] == Layout(items);
    AllCheckIntro(Writing(ranges), 0, items);
    ParseItemsExact(|ranges|, Writing(ranges), Layout(items), 0, 0, items);
  }

  /** Every request the encoder produces passes the checker. */
  lemma EncodedRequestsCheck(write: bool, reference: u16, ranges: seq<Range>)
    requires RequestOf(reference, ranges, write).Some?
    ensures RequestChecks(write, reference, ranges, RequestOf(reference, ranges, write).value)
  {
    hide Packet, Addresses, Layout, WritesOf, Encodable;
    var data := if write then Layout(WriteItems(ranges)) else [];
    SectionsOfPacket(1, reference, [FunctionCode(write), |ranges|] + Addresses(ranges), data);
    if write {
      EncodedWritesParse(ranges);
    }
  }

  /** A checked read is the encoder's packet. */
  lemma CheckedReadsAreEncoded(reference: u16, ranges: seq<Range>, pdu: seq<byte>)
    requires RequestChecks(false, reference, ranges, pdu) && RequestOf(reference, ranges, false).Some?
    ensures pdu == RequestOf(reference, ranges, false).value
  {
    PacketOfSections(pdu, 1, reference);
  }

  /** A checked write is the encoder's packet up to the contents and padding octets
      the checker skips. */
  lemma CheckedWritesAreShaped(reference: u16, ranges: seq<Range>, pdu: seq<byte>) returns (items: seq<Item>)
    requires RequestChecks(true, reference, ranges, pdu)
    ensures |items| == |ranges| && Canonical(items) && |Layout(items)| < 0x1_0000
    ensures forall i :: 0 <= i < |items| ==> WritesRange(items[i], ranges[i])
    ensures pdu == Packet(1, reference, [5, |ranges|] + Addresses(ranges), Layout(items))
  {
    hide Packet, Addresses, Layout, WritesRange;
    PacketOfSections(pdu, 1, reference);
    var data := Sections(pdu, 1, reference).value.1;
    items := WritesOf(ranges, data, 0, 0).value;
    ParseItemsSound(|ranges|, Writing(ranges), data, 0, 0);
    assert data[0..] == data;
    hide Sections, WritesOf, Canonical, AllCheck;
    forall i | 0 <= i < |items| ensures WritesRange(items[i], ranges[i]) {
      AllCheckAt(Writing(ranges), 0, items, i);
    }
  }

  /** A decoded item: its status and, for a successful read, its octets. */
  datatype Decoded = Decoded(status: Status, payload: Option<seq<byte>>)

  function DecodedItem(item: Item): Decoded {
    Decoded(StatusOf(item.code), if item.code == 255 then Some(item.content) else None)
  }

  function DecodedItems(items: seq<Item>): (s: seq<Decoded>)
    ensures |s| == |items| && forall i :: 0 <= i < |s| ==> s[i] == DecodedItem(items[i])
  {
    seq(|items|, i requires 0 <= i < |items| => DecodedItem(items[i]))
  }

  function DecodedCodes(codes: seq<byte>): (s: seq<Decoded>)
    ensures |s| == |codes| && forall i :: 0 <= i < |s| ==> s[i] == Decoded(StatusOf(codes[i]), None)
  {
    seq(|codes|, i requires 0 <= i < |codes| => Decoded(StatusOf(codes[i]), None))
  }

  function MultiOf(query: Query, pdu: seq<byte>): Option<seq<Decoded>> {
    match Sections(pdu, 3, query.reference)
    case None => None
    case Some((parameters, data)) =>
      if |query.counts| > 255 || parameters != Signature(query) then None
      else if query.write then
        if |data| == |query.counts| then Some(DecodedCodes(data)) else None
      else match ReadsOf(query.counts, data, 0, 0)
        case None => None
        case Some(items) => Some(DecodedItems(items))
  }

  method DecodeCodes(width: nat, data: seq<byte>) returns (results: Option<seq<Decoded>>)
    ensures results == if |data| == width then Some(DecodedCodes(data)) else None
  {
    var decoded: seq<Decoded>, offset: nat := [], 0;
    for index := 0 to width
      invariant offset == index <= |data| && decoded == DecodedCodes(data)[..index]
    {
      if offset >= |data| {
        return None;
      }
      decoded := decoded + [Decoded(StatusOf(data[offset]), None)];
      offset := offset + 1;
    }
    if offset != |data| {
      return None;
    }
    assert DecodedCodes(data)[..width] == DecodedCodes(data);
    return Some(decoded);
  }

  /** What remains to be parsed, after what has been. */
  function After(done: seq<Item>, tail: Option<seq<Item>>): Option<seq<Item>> {
    match tail case None => None case Some(rest) => Some(done + rest)
  }

  lemma AfterPrepend(done: seq<Item>, head: Item, tail: Option<seq<Item>>)
    ensures After(done, Prepend(head, tail)) == After(done + [head], tail)
  {
    if tail.Some? {
      assert done + ([head] + tail.value) == done + [head] + tail.value;
    }
  }

  lemma DecodedSnoc(items: seq<Item>, item: Item)
    ensures DecodedItems(items + [item]) == DecodedItems(items) + [DecodedItem(item)]
  {
  }

  method DecodeReads(counts: seq<u16>, data: seq<byte>) returns (results: Option<seq<Decoded>>)
    ensures results ==
            match ReadsOf(counts, data, 0, 0) case None => None case Some(items) => Some(DecodedItems(items))
  {
    hide ReadsOf, DecodedItems;
    var decoded: seq<Decoded>, offset: nat := [], 0;
    ghost var items: seq<Item> := [];
    ghost var whole := ReadsOf(counts, data, 0, 0);
    assert whole.Some? ==> [] + whole.value == whole.value;
    for index := 0 to |counts|
      invariant offset <= |data| && decoded == DecodedItems(items)
      invariant whole == After(items, ReadsOf(counts, data, index, offset))
    {
      ghost var head := ParseItem(data, offset, index + 1 < |counts|);
      ReadsStep(counts, data, index, offset);
      if head.Some? {
        AfterPrepend(items, head.value.0, ReadsOf(counts, data, index + 1, head.value.1));
        DecodedSnoc(items, head.value.0);
        items := items + [head.value.0];
      }
      if offset + 4 > |data| {
        return None;
      }
      var code, transport, length := data[offset], data[offset + 1], Be16(data, offset + 2);
      offset := offset + 4;
      var size: nat;
      if transport == 9 {
        size := length;
      } else if length % 8 != 0 {
        return None;
      } else {
        size := length / 8;
      }
      if offset + size > |data| {
        return None;
      }
      var payload := data[offset..offset + size];
      offset := offset + size;
      if index + 1 < |counts| && size % 2 == 1 {
        if offset >= |data| {
          return None;
        }
        offset := offset + 1;
      }
      if code == 255 && (transport != 4 || size != counts[index]) {
        return None;
      }
      decoded := decoded + [Decoded(StatusOf(code), if code == 255 then Some(payload) else None)];
    }
    ReadsEnd(counts, data, offset);
    if offset != |data| {
      return None;
    }
    assert items + [] == items;
    return Some(decoded);
  }

  method DecodeMulti(query: Query, pdu: seq<byte>) returns (results: Option<seq<Decoded>>)
    ensures results == MultiOf(query, pdu)
  {
    var sections := Sections(pdu, 3, query.reference);
    if sections.None? {
      return None;
    }
    var (parameters, data) := sections.value;
    if |query.counts| > 255 || parameters != [FunctionCode(query.write), |query.counts|] {
      return None;
    }
    if query.write {
      results := DecodeCodes(|query.counts|, data);
    } else {
      results := DecodeReads(query.counts, data);
    }
  }

  function StatusesOf(decoded: seq<Decoded>): (s: seq<Status>)
    ensures |s| == |decoded| && forall i :: 0 <= i < |s| ==> s[i] == decoded[i].status
  {
    seq(|decoded|, i requires 0 <= i < |decoded| => decoded[i].status)
  }

  /** The strict oracle accepts exactly what the session decoder accepts among PDUs of
      kind ACK_DATA with a zero reserved field, and reads the same write statuses. */
  lemma StrictDecoderIsIncluded(query: Query, pdu: seq<byte>)
    requires |query.counts| < 256
    ensures MultiOf(query, pdu).Some? <==>
            ResponseOf(query, pdu).Accepted? && pdu[1] == 3 && Be16(pdu, 2) == 0
    ensures MultiOf(query, pdu).Some? && query.write ==>
              ResponseOf(query, pdu) == Accepted(StatusesOf(MultiOf(query, pdu).value))
  {
    if |pdu| >= 12 {
      FirstFour(pdu, 0x32, 3, 0, 0);
      assert pdu[10..12] == [pdu[10], pdu[11]];
    }
  }

  lemma FirstFour(s: seq<byte>, a: byte, b: byte, c: byte, d: byte)
    requires |s| >= 4
    ensures s[..4] == [a, b, c, d] <==> s[0] == a && s[1] == b && s[2] == c && s[3] == d
  {
    assert s[..4] == [s[0], s[1], s[2], s[3]];
  }
}
