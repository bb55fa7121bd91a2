/** Request encoding of the primitive conversation oracle, and the item layout
    that requests, responses and planned batches share. */
module Wire {
  import opened Bytes

  datatype Range = Range(dbNumber: u16, start: u21, count: u16)

  datatype Location = Location(range: Range, itemIndex: Option<u32>, chunkByteOffset: u32)

  /** One multi-item data record: a four-octet header, the content, and the value
      of the inter-item padding octet where the wire carries one. */
  datatype Item = Item(code: byte, transport: byte, content: seq<byte>, pad: byte)

  /** Transport 9 counts octets; every other transport counts bits. */
  function LengthField(item: Item): nat {
    if item.transport == 9 then |item.content| else 8 * |item.content|
  }

  predicate Sized(items: seq<Item>) {
    forall i :: 0 <= i < |items| ==> LengthField(items[i]) < 0x1_0000
  }

  function ItemBytes(item: Item): (s: seq<byte>)
    requires LengthField(item) < 0x1_0000
    ensures |s| == 4 + |item.content|
  {
    [item.code, item.transport] + U16(LengthField(item)) + item.content
  }

  function Padding(item: Item): seq<byte> {
    if |item.content| % 2 == 1 then [item.pad] else []
  }

  /** A record followed by its padding octet when `more` records follow. */
  function Padded(item: Item, more: bool): (s: seq<byte>)
    requires LengthField(item) < 0x1_0000
    ensures |s| == 4 + |item.content| + (if more then |item.content| % 2 else 0)
  {
    ItemBytes(item) + (if more then Padding(item) else [])
  }

  /** Records in order; odd content is padded, except after the last record. */
  function Layout(items: seq<Item>): seq<byte>
    requires Sized(items)
  {
    if |items| == 0 then [] else Padded(items[0], |items| > 1) + Layout(items[1..])
  }

  /** The step of every encoder loop: emit record `i`, then its padding if more follow. */
  lemma LayoutStep(items: seq<Item>, i: nat)
    requires Sized(items) && i < |items|
    ensures Layout(items[i..]) == Padded(items[i], i + 1 < |items|) + Layout(items[i + 1..])
  {
    assert items[i..][1..] == items[i + 1..];
  }

  /** A padding octet the wire does not carry is recorded as zero. */
  predicate Canonical(items: seq<Item>) {
    Sized(items) &&
    forall i :: 0 <= i < |items| && (i + 1 == |items| || |items[i].content| % 2 == 0) ==> items[i].pad == 0
  }

  /** One record at `offset`, with its padding octet when `more` records follow. */
  function ParseItem(data: seq<byte>, offset: nat, more: bool): (r: Option<(Item, nat)>)
    ensures r.Some? ==> offset + 4 <= r.value.1 <= |data|
  {
    if offset + 4 > |data| then None
    else
      var transport, length := data[offset + 1], Be16(data, offset + 2);
      if transport != 9 && length % 8 != 0 then None
      else
        var size: nat := if transport == 9 then length else length / 8;
        var end := offset + 4 + size;
        if end > |data| then None
        else if more && size % 2 == 1 then
          if end == |data| then None
          else Some((Item(data[offset], transport, data[offset + 4..end], data[end]), end + 1))
        else Some((Item(data[offset], transport, data[offset + 4..end], 0), end))
  }

  /** Records `index..n` of a data section, each of which must pass `check` at its
      position; together they must exhaust the section. */
  function ParseItems(n: nat, check: (nat, Item) -> bool, data: seq<byte>, index: nat, offset: nat):
    Option<seq<Item>>
    requires index <= n && offset <= |data|
    decreases n - index
  {
    if index == n then if offset == |data| then Some([]) else None
    else match ParseItem(data, offset, index + 1 < n)
      case None => None
      case Some((item, next)) =>
        if check(index, item) then Prepend(item, ParseItems(n, check, data, index + 1, next)) else None
  }

  function Prepend<T>(head: T, tail: Option<seq<T>>): Option<seq<T>> {
    match tail case None => None case Some(rest) => Some([head] + rest)
  }

  predicate AllCheck(check: (nat, Item) -> bool, index: nat, items: seq<Item>)
    decreases |items|
  {
    items == [] || (check(index, items[0]) && AllCheck(check, index + 1, items[1..]))
  }

  lemma {:induction false} AllCheckAt(check: (nat, Item) -> bool, index: nat, items: seq<Item>, i: nat)
    requires AllCheck(check, index, items) && i < |items|
    ensures check(index + i, items[i])
    decreases |items|
  {
    if i == 0 {
    } else {
      AllCheckAt(check, index + 1, items[1..], i - 1);
    }
  }

  lemma {:induction false} AllCheckIntro(check: (nat, Item) -> bool, index: nat, items: seq<Item>)
    requires forall i :: 0 <= i < |items| ==> check(index + i, items[i])
    ensures AllCheck(check, index, items)
    decreases |items|
  {
    if items == [] {
    } else {
      assert check(index + 0, items[0]);
      forall i | 0 <= i < |items[1..]| ensures check(index + 1 + i, items[1..][i]) {
        assert check(index + (i + 1), items[i + 1]);
      }
      AllCheckIntro(check, index + 1, items[1..]);
    }
  }

  /** `item` stands at `offset`. */
  predicate ItemAt(data: seq<byte>, offset: nat, more: bool, item: Item) {
    && LengthField(item) < 0x1_0000
    && (!more || |item.content| % 2 == 0 ==> item.pad == 0)
    && offset + |Padded(item, more)| <= |data|
    && data[offset..offset + |Padded(item, more)|] == Padded(item, more)
  }

  lemma ParseItemSound(data: seq<byte>, offset: nat, more: bool)
    requires ParseItem(data, offset, more).Some?
    ensures var (item, next) := ParseItem(data, offset, more).value;
            ItemAt(data, offset, more, item) && next == offset + |Padded(item, more)|
  {
    U16Inverse(data, offset + 2);
    hide U16, Be16;
    var (item, next) := ParseItem(data, offset, more).value;
    assert LengthField(item) == Be16(data, offset + 2);
    assert data[offset..offset + 4] == [item.code, item.transport] + data[offset + 2..offset + 4];
    assert data[offset..offset + 4 + |item.content|] == ItemBytes(item);
  }

  lemma ParseItemComplete(data: seq<byte>, offset: nat, more: bool, item: Item)
    requires ItemAt(data, offset, more, item)
    ensures ParseItem(data, offset, more) == Some((item, offset + |Padded(item, more)|))
  {
    var s, size := Padded(item, more), |item.content|;
    assert forall k :: 0 <= k < |s| ==> data[offset + k] == s[k];
    assert [s[0], s[1], s[2], s[3]] == [item.code, item.transport] + U16(LengthField(item));
    assert Be16(data, offset + 2) == Be16(U16(LengthField(item)), 0);
    assert s[4..4 + size] == item.content;
    assert data[offset + 4..offset + 4 + size] == item.content;
    if more && size % 2 == 1 {
      assert data[offset + 4 + size] == s[4 + size] == item.pad;
    }
  }

  /** Parsing inverts the layout, and accepts nothing else. */
  lemma {:induction false} ParseItemsExact(
    n: nat, check: (nat, Item) -> bool, data: seq<byte>, index: nat, offset: nat, items: seq<Item>)
    requires index <= n && offset <= |data|
    ensures ParseItems(n, check, data, index, offset) == Some(items) <==>
            |items| == n - index && Canonical(items) && AllCheck(check, index, items) && data[offset..] == Layout(items)
    decreases n - index
  {
    if ParseItems(n, check, data, index, offset) == Some(items) {
      ParseItemsSound(n, check, data, index, offset);
    }
    if |items| == n - index && Canonical(items) && AllCheck(check, index, items) && data[offset..] == Layout(items) {
      ParseItemsComplete(n, check, data, index, offset, items);
    }
  }

  lemma ConsIsCanonical(item: Item, rest: seq<Item>)
    requires LengthField(item) < 0x1_0000 && (rest == [] || |item.content| % 2 == 0 ==> item.pad == 0)
    requires Canonical(rest)
    ensures Canonical([item] + rest)
    ensures Layout([item] + rest) == Padded(item, rest != []) + Layout(rest)
  {
    hide LengthField, Padded;
    var items := [item] + rest;
    assert items[1..] == rest;
    assert forall i :: 0 < i < |items| ==> items[i] == rest[i - 1];
  }

  lemma {:induction false} ParseItemsSound(
    n: nat, check: (nat, Item) -> bool, data: seq<byte>, index: nat, offset: nat)
    requires index <= n && offset <= |data| && ParseItems(n, check, data, index, offset).Some?
    ensures var items := ParseItems(n, check, data, index, offset).value;
            |items| == n - index && Canonical(items) && AllCheck(check, index, items) && data[offset..] == Layout(items)
    decreases n - index
  {
    hide ParseItem, Padded, LengthField, Layout, Canonical;
    if index == n {
      NothingLaidOut();
    } else {
      var more := index + 1 < n;
      var (item, next) := ParseItem(data, offset, more).value;
      ParseItemSound(data, offset, more);
      ParseItemsSound(n, check, data, index + 1, next);
      var rest := ParseItems(n, check, data, index + 1, next).value;
      ConsIsCanonical(item, rest);
      assert ([item] + rest)[1..] == rest;
      assert data[offset..] == data[offset..next] + data[next..];
    }
  }

  lemma NothingLaidOut()
    ensures Canonical([]) && Layout([]) == []
  {
  }

  lemma SplitAt(data: seq<byte>, offset: nat, head: seq<byte>, tail: seq<byte>)
    requires offset <= |data| && data[offset..] == head + tail
    ensures offset + |head| <= |data|
    ensures data[offset..offset + |head|] == head && data[offset + |head|..] == tail
  {
    assert data[offset..offset + |head|] == data[offset..][..|head|];
    assert data[offset + |head|..] == data[offset..][|head|..];
  }

  lemma {:induction false} ParseItemsComplete(
    n: nat, check: (nat, Item) -> bool, data: seq<byte>, index: nat, offset: nat, items: seq<Item>)
    requires index <= n && offset <= |data| && |items| == n - index
    requires Canonical(items) && AllCheck(check, index, items) && data[offset..] == Layout(items)
    ensures ParseItems(n, check, data, index, offset) == Some(items)
    decreases n - index
  {
    hide ParseItem, Padded, LengthField, Payload, Address;
    if index == n {
    } else {
      var head := Padded(items[0], index + 1 < n);
      SplitAt(data, offset, head, Layout(items[1..]));
      ParseItemComplete(data, offset, index + 1 < n, items[0]);
      CanonicalTail(items);
      ParseItemsComplete(n, check, data, index + 1, offset + |head|, items[1..]);
      assert items == [items[0]] + items[1..];
    }
  }

  lemma CanonicalTail(items: seq<Item>)
    requires Canonical(items) && |items| > 0
    ensures Canonical(items[1..])
  {
  }

  function Address(item: Range): (s: seq<byte>)
    ensures |s| == 12
  {
    [0x12, 0x0a, 0x10, 0x02] + U16(item.count) + U16(item.dbNumber) + [0x84] + U24(item.start * 8)
  }

  function Addresses(ranges: seq<Range>): (s: seq<byte>)
    ensures |s| == 12 * |ranges|
  {
    if |ranges| == 0 then [] else Address(ranges[0]) + Addresses(ranges[1..])
  }

  lemma {:induction false} AddressesAt(ranges: seq<Range>, i: nat)
    requires i < |ranges|
    ensures Addresses(ranges)[12 * i..12 * i + 12] == Address(ranges[i])
  {
    hide Address;
    if i == 0 {
    } else {
      AddressesAt(ranges[1..], i - 1);
      assert Addresses(ranges)[12 * i..12 * i + 12] == Addresses(ranges[1..])[12 * (i - 1)..12 * (i - 1) + 12];
    }
  }

  lemma AddressInjective(a: Range, b: Range)
    requires Address(a) == Address(b)
    ensures a == b
  {
    var s, t := Address(a), Address(b);
    assert s[4..6] == U16(a.count) && s[6..8] == U16(a.dbNumber) && s[9..12] == U24(a.start * 8);
    assert t[4..6] == U16(b.count) && t[6..8] == U16(b.dbNumber) && t[9..12] == U24(b.start * 8);
  }

  /** The S7 header and its two sections; acknowledgements carry two error octets. */
  function Packet(kind: byte, reference: u16, parameters: seq<byte>, data: seq<byte>): seq<byte>
    requires |parameters| < 0x1_0000 && |data| < 0x1_0000
  {
    [0x32, kind, 0, 0] + U16(reference) + U16(|parameters|) + U16(|data|)
    + (if kind == 3 then [0, 0] else []) + parameters + data
  }

  function Payload(item: Range): (s: seq<byte>)
    ensures |s| == item.count
  {
    seq(item.count, index => (item.start * 7 + index * 29) % 256)
  }

  predicate Encodable(item: Range, write: bool) {
    item.count != 0 && item.start + item.count <= 0x20_0000 && (write ==> item.count * 8 <= 65535)
  }

  function RangesOf(locations: seq<Location>): (ranges: seq<Range>)
    ensures |ranges| == |locations| && forall i :: 0 <= i < |ranges| ==> ranges[i] == locations[i].range
  {
    seq(|locations|, i requires 0 <= i < |locations| => locations[i].range)
  }

  function WriteItem(item: Range): Item { Item(0, 4, Payload(item), 0) }

  function WriteItems(ranges: seq<Range>): (items: seq<Item>)
    ensures |items| == |ranges|
    ensures forall i :: 0 <= i < |items| ==> items[i] == WriteItem(ranges[i])
    ensures (forall i :: 0 <= i < |ranges| ==> Encodable(ranges[i], true)) ==> Sized(items)
  {
    seq(|ranges|, i requires 0 <= i < |ranges| => WriteItem(ranges[i]))
  }

  function FunctionCode(write: bool): byte { if write then 5 else 4 }

  /** The request for `ranges`, or none when the codec refuses them. */
  function RequestOf(reference: u16, ranges: seq<Range>, write: bool): Option<seq<byte>> {
    if |ranges| == 0 || |ranges| > 20 then None
    else if exists i :: 0 <= i < |ranges| && !Encodable(ranges[i], write) then None
    else
      var data := if write then Layout(WriteItems(ranges)) else [];
      if |data| > 65535 then None
      else Some(Packet(1, reference, [FunctionCode(write), |ranges|] + Addresses(ranges), data))
  }

  method RequestData(ranges: seq<Range>) returns (data: seq<byte>)
    requires forall i :: 0 <= i < |ranges| ==> Encodable(ranges[i], true)
    ensures data == Layout(WriteItems(ranges))
  {
    hide Layout, Padded, Payload, LengthField;
    data := [];
    ghost var items := WriteItems(ranges);
    for index := 0 to |ranges|
      invariant data + Layout(items[index..]) == Layout(items)
    {
      LayoutStep(items, index);
      assert items[index] == WriteItem(ranges[index]);
      var record := WriteRecord(Payload(ranges[index]), index + 1 < |ranges|);
      assert data + Layout(items[index..]) == data + record + Layout(items[index + 1..]);
      data := data + record;
    }
    NothingLaidOut();
    assert items[|ranges|..] == [] && data + [] == data;
  }

  /** One write record, as every encoder emits it. */
  method WriteRecord(content: seq<byte>, more: bool) returns (record: seq<byte>)
    requires |content| * 8 < 0x1_0000
    ensures record == Padded(Item(0, 4, content, 0), more)
  {
    record := [0, 4] + U16(|content| * 8) + content;
    if more && |content| % 2 == 1 {
      record := record + [0];
    }
  }

  method Request(reference: u16, ranges: seq<Range>, write: bool) returns (pdu: Option<seq<byte>>)
    ensures pdu == RequestOf(reference, ranges, write)
  {
    if |ranges| == 0 || |ranges| > 20 {
      return None;
    }
    if exists i :: 0 <= i < |ranges| && !Encodable(ranges[i], write) {
      return None;
    }
    var parameters := [FunctionCode(write), |ranges|] + Addresses(ranges);
    var data: seq<byte> := [];
    if write {
      data := RequestData(ranges);
    }
    if |data| > 65535 {
      return None;
    }
    return Some(Packet(1, reference, parameters, data));
  }

  /** Every field of a request can be read back at its fixed position. */
  lemma RequestFields(reference: u16, ranges: seq<Range>, write: bool)
    requires RequestOf(reference, ranges, write).Some?
    ensures var p := RequestOf(reference, ranges, write).value;
            && |p| >= 12 + 12 * |ranges|
            && Be16(p, 4) == reference && p[10] == FunctionCode(write) && p[11] == |ranges|
            && p[12..12 + 12 * |ranges|] == Addresses(ranges)
  {
    hide Address, Addresses, Layout, WriteItems, Encodable;
  }

  lemma AddressesInjective(a: seq<Range>, b: seq<Range>)
    requires |a| == |b| && Addresses(a) == Addresses(b)
    ensures a == b
  {
    forall i | 0 <= i < |a|
      ensures a[i] == b[i]
    {
      hide Address, Addresses;
      AddressesAt(a, i);
      AddressesAt(b, i);
      AddressInjective(a[i], b[i]);
    }
  }

  /** Two operations with the same request bytes are the same operation. */
  lemma RequestInjective(
    reference: u16, ranges: seq<Range>, write: bool, reference': u16, ranges': seq<Range>, write': bool)
    requires RequestOf(reference, ranges, write).Some?
    requires RequestOf(reference, ranges, write) == RequestOf(reference', ranges', write')
    ensures reference == reference' && ranges == ranges' && write == write'
  {
    RequestFields(reference, ranges, write);
    RequestFields(reference', ranges', write');
    hide RequestOf, Addresses;
    AddressesInjective(ranges, ranges');
  }
}
