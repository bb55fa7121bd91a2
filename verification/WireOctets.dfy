/** What requests look like octet by octet, and exactly which octets the strict request
    checker takes. */
module WireOctets {
  import opened Bytes
  import opened Wire
  import opened Multi

  // --- records ---

  /** Where record `i` of a data section starts. */
  function Offset(items: seq<Item>, i: nat): nat
    requires i <= |items|
  {
    if i == 0 then 0 else 4 + |items[0].content| + |items[0].content| % 2 + Offset(items[1..], i - 1)
  }

  /** A record at `at`: its code, its transport, its length in octets or bits, its content,
      and the padding octet that odd content has when `more` records follow. */
  predicate RecordAt(data: seq<byte>, at: nat, item: Item, more: bool) {
    var size := |item.content|;
    && at + 4 + size <= |data|
    && data[at] == item.code && data[at + 1] == item.transport
    && Be16(data, at + 2) == (if item.transport == 9 then size else 8 * size)
    && data[at + 4..at + 4 + size] == item.content
    && (more && size % 2 == 1 ==> at + 4 + size < |data| && data[at + 4 + size] == item.pad)
  }

  lemma PaddedOctets(item: Item, more: bool)
    requires LengthField(item) < 0x1_0000
    ensures RecordAt(Padded(item, more), 0, item, more)
    ensures |Padded(item, more)| == 4 + |item.content| + (if more then |item.content| % 2 else 0)
  {
    var s := Padded(item, more);
    assert s[2..4] == U16(LengthField(item));
    Field(s, 2, LengthField(item));
  }

  lemma RecordShift(head: seq<byte>, data: seq<byte>, at: nat, item: Item, more: bool)
    requires RecordAt(data, at, item, more)
    ensures RecordAt(head + data, |head| + at, item, more)
  {
    var all := head + data;
    assert all[|head| + at..] == data[at..];
    assert forall k :: 0 <= k < |data| ==> all[|head| + k] == data[k];
  }

  lemma RecordExtend(data: seq<byte>, tail: seq<byte>, at: nat, item: Item, more: bool)
    requires RecordAt(data, at, item, more)
    ensures RecordAt(data + tail, at, item, more)
  {
    assert forall k :: 0 <= k < |data| ==> (data + tail)[k] == data[k];
    assert (data + tail)[at + 4..at + 4 + |item.content|] == data[at + 4..at + 4 + |item.content|];
  }

  /** Each record of a layout stands at its offset. */
  lemma {:induction false} LayoutOctets(items: seq<Item>, i: nat)
    requires Sized(items) && i < |items|
    ensures RecordAt(Layout(items), Offset(items, i), items[i], i + 1 < |items|)
  {
    hide RecordAt, Padded, LengthField;
    var head := Padded(items[0], |items| > 1);
    PaddedOctets(items[0], |items| > 1);
    if i == 0 {
      RecordExtend(head, Layout(items[1..]), 0, items[0], |items| > 1);
    } else {
      LayoutOctets(items[1..], i - 1);
      RecordShift(head, Layout(items[1..]), Offset(items[1..], i - 1), items[i], i + 1 < |items|);
    }
  }

  /** A layout ends where its last record does. */
  lemma {:induction false} LayoutEnds(items: seq<Item>)
    requires Sized(items)
    ensures |Layout(items)| ==
            if items == [] then 0 else Offset(items, |items| - 1) + 4 + |items[|items| - 1].content|
  {
    if items == [] {
    } else {
      PaddedOctets(items[0], |items| > 1);
      hide Padded, LengthField;
      LayoutEnds(items[1..]);
    }
  }

  // --- packets ---

  /** The header: protocol 0x32, kind, a zero reserved field, reference, section sizes, and
      two zero error octets on an acknowledgement. */
  predicate HeaderAt(p: seq<byte>, kind: byte, reference: u16, parameterSize: nat, dataSize: nat) {
    var size := if kind == 3 then 12 else 10;
    && |p| == size + parameterSize + dataSize
    && p[0] == 0x32 && p[1] == kind && p[2] == 0 && p[3] == 0
    && Be16(p, 4) == reference && Be16(p, 6) == parameterSize && Be16(p, 8) == dataSize
    && (kind == 3 ==> p[10] == 0 && p[11] == 0)
  }

  lemma PacketOctets(kind: byte, reference: u16, parameters: seq<byte>, data: seq<byte>)
    requires |parameters| < 0x1_0000 && |data| < 0x1_0000
    ensures var p, size := Packet(kind, reference, parameters, data), if kind == 3 then 12 else 10;
            && HeaderAt(p, kind, reference, |parameters|, |data|)
            && p[size..size + |parameters|] == parameters && p[size + |parameters|..] == data
  {
    var p, size := Packet(kind, reference, parameters, data), if kind == 3 then 12 else 10;
    assert p[4..6] == U16(reference) && p[6..8] == U16(|parameters|) && p[8..10] == U16(|data|);
    hide U16, Be16;
    Field(p, 4, reference);
    Field(p, 6, |parameters|);
    Field(p, 8, |data|);
    assert p[size..size + |parameters|] == parameters && p[size + |parameters|..] == data;
  }

  // --- addresses ---

  /** Twelve octets that name a range: the octet count, the data block, and the position in
      bits, all big-endian. */
  predicate SpellsRange(p: seq<byte>, at: nat, range: Range) {
    && at + 12 <= |p|
    && p[at] == 0x12 && p[at + 1] == 0x0a && p[at + 2] == 0x10 && p[at + 3] == 0x02
    && Be16(p, at + 4) == range.count && Be16(p, at + 6) == range.dbNumber && p[at + 8] == 0x84
    && p[at + 9] as int * 0x1_0000 + p[at + 10] as int * 0x100 + p[at + 11] == 8 * range.start
  }

  lemma AddressOctets(range: Range)
    ensures SpellsRange(Address(range), 0, range)
  {
    var a, bits := Address(range), U24(range.start * 8);
    assert a[4..6] == U16(range.count) && a[6..8] == U16(range.dbNumber);
    assert a[9..12] == bits && a[9] == bits[0] && a[10] == bits[1] && a[11] == bits[2];
    hide U16, Be16, U24;
    Field(a, 4, range.count);
    Field(a, 6, range.dbNumber);
  }

  lemma SpellingMoves(p: seq<byte>, at: nat, q: seq<byte>, to: nat, range: Range)
    requires at + 12 <= |p| && to + 12 <= |q| && p[at..at + 12] == q[to..to + 12]
    ensures SpellsRange(p, at, range) <==> SpellsRange(q, to, range)
  {
    var s := p[at..at + 12];
    assert forall k :: 0 <= k < 12 ==> p[at + k] == s[k] && q[to + k] == s[k];
  }

  /** Only the address of a range spells it. */
  lemma SpellingIsAddress(p: seq<byte>, at: nat, range: Range)
    requires at + 12 <= |p|
    ensures SpellsRange(p, at, range) <==> p[at..at + 12] == Address(range)
  {
    AddressOctets(range);
    if p[at..at + 12] == Address(range) {
      assert Address(range)[0..12] == Address(range);
      SpellingMoves(p, at, Address(range), 0, range);
    }
    if SpellsRange(p, at, range) {
      var a := Address(range);
      U16Inverse(p, at + 4);
      U16Inverse(p, at + 6);
      U16Inverse(a, 4);
      U16Inverse(a, 6);
      assert p[at..at + 12] == p[at..at + 4] + p[at + 4..at + 6] + p[at + 6..at + 8] + p[at + 8..at + 12];
      assert a == a[..4] + a[4..6] + a[6..8] + a[8..12];
      assert p[at + 9] == a[9] && p[at + 10] == a[10] && p[at + 11] == a[11];
    }
  }

  // --- requests ---

  /** Where the record of range `i` starts in the data of a write. */
  function RangeOffset(ranges: seq<Range>, i: nat): nat
    requires i <= |ranges|
  {
    if i == 0 then 0 else 4 + ranges[0].count + ranges[0].count % 2 + RangeOffset(ranges[1..], i - 1)
  }

  /** The data of a write: a record per range, odd content padded except in the last. */
  function DataLength(ranges: seq<Range>): nat {
    if ranges == [] then 0 else RangeOffset(ranges, |ranges| - 1) + 4 + ranges[|ranges| - 1].count
  }

  /** The ranges in order, from octet 12 on. */
  predicate AllSpelled(p: seq<byte>, ranges: seq<Range>) {
    forall i :: 0 <= i < |ranges| ==> SpellsRange(p, 12 + 12 * i, ranges[i])
  }

  /** Every octet of the parameter section, and the sizes of both sections. */
  predicate RequestHead(p: seq<byte>, reference: u16, ranges: seq<Range>, write: bool) {
    && HeaderAt(p, 1, reference, 2 + 12 * |ranges|, if write then DataLength(ranges) else 0)
    && p[10] == (if write then 5 else 4) && p[11] == |ranges| && AllSpelled(p, ranges)
  }

  /** The octets of a range: a function of its start and of the offset within it. */
  predicate FilledFor(content: seq<byte>, range: Range) {
    |content| == range.count && forall k :: 0 <= k < range.count ==> content[k] == (range.start * 7 + k * 29) % 256
  }

  /** The octets written to range `i`, behind their record header. */
  predicate WritesAt(p: seq<byte>, at: nat, range: Range, more: bool) {
    && at + 4 + range.count <= |p|
    && p[at] == 0 && p[at + 1] == 4 && Be16(p, at + 2) == 8 * range.count
    && FilledFor(p[at + 4..at + 4 + range.count], range)
    && (more && range.count % 2 == 1 ==> at + 4 + range.count < |p| && p[at + 4 + range.count] == 0)
  }

  lemma {:induction false} OffsetsAgree(ranges: seq<Range>, i: nat)
    requires i <= |ranges|
    ensures Offset(WriteItems(ranges), i) == RangeOffset(ranges, i)
  {
    hide Payload;
    if i == 0 {
    } else {
      assert WriteItems(ranges)[1..] == WriteItems(ranges[1..]);
      OffsetsAgree(ranges[1..], i - 1);
    }
  }

  lemma WriteDataLength(ranges: seq<Range>)
    requires forall i :: 0 <= i < |ranges| ==> Encodable(ranges[i], true)
    ensures |Layout(WriteItems(ranges))| == DataLength(ranges)
  {
    LayoutEnds(WriteItems(ranges));
    hide Payload, Layout, Offset, RangeOffset;
    if ranges != [] {
      OffsetsAgree(ranges, |ranges| - 1);
    }
  }

  lemma {:induction false} AddressesSpell(ranges: seq<Range>, i: nat)
    requires i < |ranges|
    ensures SpellsRange(Addresses(ranges), 12 * i, ranges[i])
  {
    hide Address, SpellsRange;
    AddressesAt(ranges, i);
    SpellingIsAddress(Addresses(ranges), 12 * i, ranges[i]);
  }

  lemma AddressesAreSpelled(p: seq<byte>, ranges: seq<Range>)
    requires |p| >= 12 + 12 * |ranges| && p[12..12 + 12 * |ranges|] == Addresses(ranges)
    ensures AllSpelled(p, ranges)
  {
    hide Address, SpellsRange, Addresses;
    forall i | 0 <= i < |ranges| ensures SpellsRange(p, 12 + 12 * i, ranges[i]) {
      AddressesSpell(ranges, i);
      Within(p, 12, Addresses(ranges), 12 * i, 12 * i + 12);
      SpellingMoves(p, 12 + 12 * i, Addresses(ranges), 12 * i, ranges[i]);
    }
  }

  lemma SpelledAreAddresses(p: seq<byte>, ranges: seq<Range>)
    requires |p| >= 12 + 12 * |ranges| && AllSpelled(p, ranges)
    ensures p[12..12 + 12 * |ranges|] == Addresses(ranges)
  {
    hide Address, SpellsRange, Addresses;
    var t := p[12..12 + 12 * |ranges|];
    forall i | 0 <= i < |ranges| ensures t[12 * i..12 * i + 12] == Address(ranges[i]) {
      SpellingIsAddress(p, 12 + 12 * i, ranges[i]);
      Within(p, 12, t, 12 * i, 12 * i + 12);
    }
    AddressesTile(ranges, t);
  }

  lemma HeadSpells(p: seq<byte>, ranges: seq<Range>, code: byte)
    requires |ranges| < 256 && |p| >= 12 + 12 * |ranges|
    ensures p[10..12 + 12 * |ranges|] == [code, |ranges|] + Addresses(ranges) <==>
            p[10] == code && p[11] == |ranges| && AllSpelled(p, ranges)
  {
    hide Addresses, AllSpelled;
    var end := 12 + 12 * |ranges|;
    HeadSplits(p, end);
    TwoAndRest(p[10], p[11], p[12..end], code, |ranges|, Addresses(ranges));
    if p[12..end] == Addresses(ranges) {
      AddressesAreSpelled(p, ranges);
    }
    if AllSpelled(p, ranges) {
      SpelledAreAddresses(p, ranges);
    }
  }

  lemma HeadSplits(p: seq<byte>, end: nat)
    requires 12 <= end <= |p|
    ensures p[10..end] == [p[10], p[11]] + p[12..end]
  {
  }

  lemma TwoAndRest(a: byte, b: byte, s: seq<byte>, c: byte, d: byte, t: seq<byte>)
    ensures [a, b] + s == [c, d] + t <==> a == c && b == d && s == t
  {
    var left, right := [a, b] + s, [c, d] + t;
    assert s == left[2..] && t == right[2..];
    assert left[0] == a && left[1] == b && right[0] == c && right[1] == d;
  }

  /** The parameter section of every request the encoder produces. */
  lemma RequestOctets(reference: u16, ranges: seq<Range>, write: bool)
    requires RequestOf(reference, ranges, write).Some?
    ensures RequestHead(RequestOf(reference, ranges, write).value, reference, ranges, write)
  {
    var p := RequestOf(reference, ranges, write).value;
    var parameters: seq<byte> := [FunctionCode(write), |ranges|] + Addresses(ranges);
    var data := if write then Layout(WriteItems(ranges)) else [];
    PacketOctets(1, reference, parameters, data);
    if write {
      WriteDataLength(ranges);
    }
    hide Packet, Layout, Addresses, RequestOf, DataLength, Encodable;
    assert p[10..12 + 12 * |ranges|] == parameters;
    HeadSpells(p, ranges, FunctionCode(write));
  }

  /** Records laid out behind `head` stand at their offsets. */
  lemma RecordsBehind(head: seq<byte>, items: seq<Item>, i: nat)
    requires Sized(items) && i < |items|
    ensures RecordAt(head + Layout(items), |head| + Offset(items, i), items[i], i + 1 < |items|)
  {
    hide Layout, Offset, RecordAt;
    LayoutOctets(items, i);
    RecordShift(head, Layout(items), Offset(items, i), items[i], i + 1 < |items|);
  }

  lemma PacketEndsInData(kind: byte, reference: u16, parameters: seq<byte>, data: seq<byte>)
    requires |parameters| < 0x1_0000 && |data| < 0x1_0000
    ensures var size := (if kind == 3 then 12 else 10) + |parameters|;
            |Packet(kind, reference, parameters, data)| == size + |data|
            && Packet(kind, reference, parameters, data) == Packet(kind, reference, parameters, data)[..size] + data
  {
    PacketOctets(kind, reference, parameters, data);
    hide Packet, HeaderAt;
  }

  /** The data section of every write the encoder produces. */
  lemma WriteOctets(reference: u16, ranges: seq<Range>, i: nat)
    requires RequestOf(reference, ranges, true).Some? && i < |ranges|
    ensures WritesAt(RequestOf(reference, ranges, true).value,
                     12 + 12 * |ranges| + RangeOffset(ranges, i), ranges[i], i + 1 < |ranges|)
  {
    hide Layout, Addresses, Offset, RangeOffset, RecordAt, WritesAt, Packet;
    var p, items, at := RequestOf(reference, ranges, true).value, WriteItems(ranges), 12 + 12 * |ranges|;
    PacketEndsInData(1, reference, [5, |ranges|] + Addresses(ranges), Layout(items));
    hide RequestOf;
    RecordsBehind(p[..at], items, i);
    OffsetsAgree(ranges, i);
    RecordWrites(p, at + RangeOffset(ranges, i), ranges[i], i + 1 < |ranges|);
  }

  lemma RecordWrites(p: seq<byte>, at: nat, range: Range, more: bool)
    requires RecordAt(p, at, WriteItem(range), more)
    ensures WritesAt(p, at, range, more)
  {
    assert p[at + 4..at + 4 + range.count] == Payload(range);
  }

  /** What the encoder refuses: no ranges or more than twenty, an empty range, one that ends
      beyond the address space, a write too long for its bit count, or too much data. */
  lemma RequestRefused(reference: u16, ranges: seq<Range>, write: bool)
    ensures RequestOf(reference, ranges, write).None? <==>
            || |ranges| == 0 || |ranges| > 20
            || (exists i :: 0 <= i < |ranges| &&
                  (ranges[i].count == 0 || ranges[i].start + ranges[i].count > 0x20_0000
                   || (write && ranges[i].count >= 8192)))
            || (write && DataLength(ranges) > 65535)
  {
    if write && forall i :: 0 <= i < |ranges| ==> Encodable(ranges[i], true) {
      WriteDataLength(ranges);
    }
    hide Layout, DataLength, Packet, Addresses;
  }

  // --- what the strict checker takes ---

  /** A write record's header; its content and padding are not looked at. */
  predicate WriteHeadAt(data: seq<byte>, at: nat, range: Range) {
    at + 4 <= |data| && data[at] == 0 && data[at + 1] == 4 && Be16(data, at + 2) == 8 * range.count
  }

  lemma HeaderOctets(data: seq<byte>, at: nat, range: Range)
    ensures WriteHeadAt(data, at, range) <==>
            range.count * 8 <= 65535 && at + 4 <= |data| && data[at..at + 4] == [0, 4] + U16(range.count * 8)
  {
    if at + 4 <= |data| && range.count * 8 <= 65535 {
      U16Inverse(data, at + 2);
      var size: u16 := range.count * 8;
      assert data[at..at + 4] == [data[at], data[at + 1]] + data[at + 2..at + 4];
      assert data[at + 2..at + 4] == data[at..at + 4][2..];
      if data[at..at + 4] == [0, 4] + U16(size) {
        assert data[at] == data[at..at + 4][0] && data[at + 1] == data[at..at + 4][1];
        Field(data, at + 2, size);
      }
    }
  }

  /** A record header per range, from `offset` on. */
  predicate HeadsAt(data: seq<byte>, offset: nat, ranges: seq<Range>) {
    forall i :: 0 <= i < |ranges| ==> WriteHeadAt(data, offset + RangeOffset(ranges, i), ranges[i])
  }

  lemma HeadsStep(data: seq<byte>, offset: nat, ranges: seq<Range>)
    requires ranges != []
    ensures HeadsAt(data, offset, ranges) <==>
            && WriteHeadAt(data, offset, ranges[0])
            && HeadsAt(data, offset + 4 + ranges[0].count + ranges[0].count % 2, ranges[1..])
  {
    hide WriteHeadAt;
    var rest, end := ranges[1..], offset + 4 + ranges[0].count + ranges[0].count % 2;
    if HeadsAt(data, offset, ranges) {
      assert WriteHeadAt(data, offset + RangeOffset(ranges, 0), ranges[0]);
      forall i | 0 <= i < |rest| ensures WriteHeadAt(data, end + RangeOffset(rest, i), rest[i]) {
        assert WriteHeadAt(data, offset + RangeOffset(ranges, i + 1), ranges[i + 1]);
      }
    }
    if WriteHeadAt(data, offset, ranges[0]) && HeadsAt(data, end, rest) {
      forall i | 0 <= i < |ranges| ensures WriteHeadAt(data, offset + RangeOffset(ranges, i), ranges[i]) {
        if i > 0 {
          assert WriteHeadAt(data, end + RangeOffset(rest, i - 1), rest[i - 1]);
        }
      }
    }
  }

  lemma DataLengthStep(ranges: seq<Range>)
    requires ranges != []
    ensures DataLength(ranges) ==
            4 + ranges[0].count + (if |ranges| > 1 then ranges[0].count % 2 else 0) + DataLength(ranges[1..])
  {
  }

  lemma {:induction false} WritesChain(ranges: seq<Range>, data: seq<byte>, index: nat, offset: nat)
    requires index <= |ranges| && offset <= |data|
    ensures WritesOf(ranges, data, index, offset).Some? <==>
            HeadsAt(data, offset, ranges[index..]) && offset + DataLength(ranges[index..]) == |data|
    decreases |ranges| - index
  {
    hide ParseItem, WritesRange, WriteHeadAt, HeadsAt, WritesOf, DataLength;
    if index == |ranges| {
      WritesEnd(ranges, data, offset);
      NoHeads(data, offset);
      assert ranges[index..] == [];
    } else {
      var more, range, rest := index + 1 < |ranges|, ranges[index], ranges[index + 1..];
      assert ranges[index..][1..] == rest && ranges[index..][0] == range;
      var end := offset + 4 + range.count + (if more then range.count % 2 else 0);
      RecordChecks(range, data, offset, more);
      WritesStep(ranges, data, index, offset);
      HeaderOctets(data, offset, range);
      DataLengthStep(ranges[index..]);
      HeadsStep(data, offset, ranges[index..]);
      if !more {
        assert rest == [];
        NoHeads(data, end);
        NoHeads(data, end + range.count % 2);
      }
      if end <= |data| {
        WritesChain(ranges, data, index + 1, end);
      }
    }
  }

  lemma NoHeads(data: seq<byte>, offset: nat)
    ensures HeadsAt(data, offset, []) && DataLength([]) == 0
  {
  }

  lemma SectionsOctets(p: seq<byte>, reference: u16)
    ensures Sections(p, 1, reference).Some? <==>
            |p| >= 10 && HeaderAt(p, 1, reference, Be16(p, 6), Be16(p, 8))
    ensures Sections(p, 1, reference).Some? ==>
            Sections(p, 1, reference).value == (p[10..10 + Be16(p, 6)], p[10 + Be16(p, 6)..])
  {
    hide Be16;
    if |p| >= 10 {
      FirstFour(p, 0x32, 1, 0, 0);
    }
  }

  lemma HeadsShift(p: seq<byte>, at: nat, ranges: seq<Range>)
    requires at <= |p|
    ensures HeadsAt(p[at..], 0, ranges) <==> HeadsAt(p, at, ranges)
  {
    hide RangeOffset, WriteHeadAt;
    forall i | 0 <= i < |ranges|
      ensures WriteHeadAt(p[at..], 0 + RangeOffset(ranges, i), ranges[i]) <==>
              WriteHeadAt(p, at + RangeOffset(ranges, i), ranges[i])
    {
      HeadShift(p, at, RangeOffset(ranges, i), ranges[i]);
    }
  }

  lemma HeadShift(p: seq<byte>, at: nat, offset: nat, range: Range)
    requires at <= |p|
    ensures WriteHeadAt(p[at..], offset, range) <==> WriteHeadAt(p, at + offset, range)
  {
  }

  /** The strict checker takes exactly the packets with this parameter section, no data on a
      read, and on a write a record header per range, at its place. */
  lemma CheckedOctets(write: bool, reference: u16, ranges: seq<Range>, pdu: seq<byte>)
    ensures RequestChecks(write, reference, ranges, pdu) <==>
            && |ranges| < 256 && RequestHead(pdu, reference, ranges, write)
            && (write ==> HeadsAt(pdu, 12 + 12 * |ranges|, ranges))
  {
    hide Be16, Addresses, AllSpelled, WritesOf, HeadsAt, DataLength;
    SectionsOctets(pdu, reference);
    var n := |ranges|;
    if |pdu| >= 12 + 12 * n && n < 256 {
      HeadSpells(pdu, ranges, FunctionCode(write));
      var data := pdu[12 + 12 * n..];
      WritesChain(ranges, data, 0, 0);
      assert ranges[0..] == ranges;
      HeadsShift(pdu, 12 + 12 * n, ranges);
      CheckedSections(write, reference, ranges, pdu);
    } else if Sections(pdu, 1, reference).Some? {
      assert |Sections(pdu, 1, reference).value.0| < 2 + 12 * n || n >= 256;
    }
  }

  lemma CheckedSections(write: bool, reference: u16, ranges: seq<Range>, pdu: seq<byte>)
    requires |ranges| < 256 && |pdu| >= 12 + 12 * |ranges|
    ensures var data := pdu[12 + 12 * |ranges|..];
            RequestChecks(write, reference, ranges, pdu) <==>
            && |data| < 0x1_0000 && HeaderAt(pdu, 1, reference, 2 + 12 * |ranges|, |data|)
            && pdu[10..12 + 12 * |ranges|] == [FunctionCode(write), |ranges|] + Addresses(ranges)
            && (if write then WritesOf(ranges, data, 0, 0).Some? else data == [])
  {
    hide Be16, Addresses, WritesOf;
    SectionsOctets(pdu, reference);
    hide Sections;
  }
}
