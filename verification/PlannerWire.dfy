/** The octets of a planned batch: the request, the peer's reply, and their lengths. */
module PlannerWire {
  import opened Bytes
  import opened Wire
  import opened Progress
  import opened Response
  import opened Multi
  import opened Planner
  import opened PlannerProofs

  function ItemOf(piece: Piece): Item { Item(0, 4, PayloadOf(piece), 0) }

  function ItemsOf(batch: seq<Piece>): (items: seq<Item>)
    ensures |items| == |batch| && forall i :: 0 <= i < |items| ==> items[i] == ItemOf(batch[i])
  {
    seq(|batch|, i requires 0 <= i < |batch| => ItemOf(batch[i]))
  }

  /** The record answering a piece; item 2 is the one the peer rejects. */
  function AnswerOf(piece: Piece): Item {
    if piece.item == 2 then Item(5, 0, [], 0) else Item(255, 4, PayloadOf(piece), 0)
  }

  function AnswersOf(batch: seq<Piece>): (items: seq<Item>)
    ensures |items| == |batch| && forall i :: 0 <= i < |items| ==> items[i] == AnswerOf(batch[i])
  {
    seq(|batch|, i requires 0 <= i < |batch| => AnswerOf(batch[i]))
  }

  function CodesOf(batch: seq<Piece>): (codes: seq<byte>)
    ensures |codes| == |batch|
    ensures forall i :: 0 <= i < |codes| ==> codes[i] == if batch[i].item == 2 then 5 else 255
  {
    seq(|batch|, i requires 0 <= i < |batch| => if batch[i].item == 2 then 5 else 255)
  }

  /** The piece has an address: its length and its bit position fit their fields. */
  predicate Addressable(piece: Piece) { piece.size < 0x1_0000 && piece.start < 0x20_0000 }

  predicate AllAddressable(batch: seq<Piece>) {
    forall i :: 0 <= i < |batch| ==> Addressable(batch[i])
  }

  function BatchRanges(batch: seq<Piece>): (ranges: seq<Range>)
    requires AllAddressable(batch)
    ensures |ranges| == |batch|
    ensures forall i :: 0 <= i < |ranges| ==> ranges[i] == Range(1, batch[i].start, batch[i].size)
  {
    seq(|batch|, i requires 0 <= i < |batch| => Range(1, batch[i].start, batch[i].size))
  }

  lemma {:induction false} LayoutSize(batch: seq<Piece>)
    requires Sized(ItemsOf(batch))
    ensures |Layout(ItemsOf(batch))| == DataSize(batch)
  {
    if batch == [] {
    } else {
      var items := ItemsOf(batch);
      assert items[1..] == ItemsOf(batch[1..]);
      LayoutSize(batch[1..]);
      assert |items[0].content| == batch[0].size;
    }
  }

  /** No length field of the request overflows. */
  predicate Travels(batch: seq<Piece>, write: bool) {
    && |batch| < 256 && AllAddressable(batch)
    && (write ==> Sized(ItemsOf(batch)) && |Layout(ItemsOf(batch))| < 0x1_0000)
  }

  lemma {:induction false} AddressesSnoc(ranges: seq<Range>, range: Range)
    ensures Addresses(ranges + [range]) == Addresses(ranges) + Address(range)
  {
    hide Address;
    if ranges == [] {
      assert ranges + [range] == [range];
      assert Addresses([range]) == Address(range) + Addresses([]);
    } else {
      assert (ranges + [range])[1..] == ranges[1..] + [range];
      AddressesSnoc(ranges[1..], range);
    }
  }

  /** The request that addresses every piece and, for a write, carries its octets. */
  function SentPdu(batch: seq<Piece>, write: bool): seq<byte>
    requires Travels(batch, write)
  {
    Packet(1, 0, [FunctionCode(write), |batch|] + Addresses(BatchRanges(batch)),
           if write then Layout(ItemsOf(batch)) else [])
  }

  lemma SentSize(batch: seq<Piece>, write: bool)
    requires Travels(batch, write)
    ensures |SentPdu(batch, write)| == WireSize(batch, write)
  {
    hide Addresses, Layout;
    if write {
      LayoutSize(batch);
    }
  }

  lemma SentRecordsCheck(batch: seq<Piece>)
    requires Travels(batch, true)
    ensures WritesOf(BatchRanges(batch), Layout(ItemsOf(batch)), 0, 0).Some?
  {
    hide Layout, PayloadOf;
    var ranges, items := BatchRanges(batch), ItemsOf(batch);
    assert Layout(items)[0..] == Layout(items);
    AllCheckIntro(Writing(ranges), 0, items);
    ParseItemsExact(|ranges|, Writing(ranges), Layout(items), 0, 0, items);
  }

  lemma SendableChecks(batch: seq<Piece>, write: bool)
    requires Travels(batch, write)
    ensures |SentPdu(batch, write)| == WireSize(batch, write)
    ensures RequestChecks(write, 0, BatchRanges(batch), SentPdu(batch, write))
  {
    hide Addresses, Layout, Packet, WireSize, WritesOf;
    SentSize(batch, write);
    SectionsOfPacket(1, 0, [FunctionCode(write), |batch|] + Addresses(BatchRanges(batch)),
                     if write then Layout(ItemsOf(batch)) else []);
    if write {
      SentRecordsCheck(batch);
    }
  }

  /** The batch the planner splits is one the encoder sends, as long as its larger item
      fits a length field that counts bits. */
  lemma WastefulBatchTravels(pdu: nat, write: bool)
    requires !ReserveIsFree(pdu, write, 1) && pdu <= 8215
    ensures var batch := WastefulBatch(pdu, write, 1);
            && Travels(batch, write) && |SentPdu(batch, write)| <= pdu
            && forall i :: 0 <= i < 2 ==> Encodable(BatchRanges(batch)[i], write)
  {
    hide Layout, PayloadOf;
    var batch := WastefulBatch(pdu, write, 1);
    PairSizes(batch[0], batch[1], write);
    assert LengthField(ItemsOf(batch)[0]) < 0x1_0000 && LengthField(ItemsOf(batch)[1]) < 0x1_0000;
    LayoutSize(batch);
    SentSize(batch, write);
  }

  lemma AddressStep(batch: seq<Piece>, position: nat)
    requires position < |batch| && AllAddressable(batch[..position]) && Addressable(batch[position])
    ensures AllAddressable(batch[..position + 1])
    ensures Addresses(BatchRanges(batch[..position + 1])) ==
            Addresses(BatchRanges(batch[..position])) + Address(Range(1, batch[position].start, batch[position].size))
  {
    hide Address, Addresses;
    var piece := batch[position];
    assert batch[..position + 1] == batch[..position] + [piece];
    assert BatchRanges(batch[..position + 1]) == BatchRanges(batch[..position]) + [Range(1, piece.start, piece.size)];
    AddressesSnoc(BatchRanges(batch[..position]), Range(1, piece.start, piece.size));
  }

  /** The request for a batch: refused only when a field overflows; otherwise exactly as
      long as the planner accounts for, and accepted by the strict request checker. */
  method WireBytes(batch: seq<Piece>, write: bool) returns (wire: Option<seq<byte>>)
    ensures wire.Some? <==> Travels(batch, write)
    ensures wire.Some? ==> wire.value == SentPdu(batch, write) && |wire.value| == WireSize(batch, write)
    ensures wire.Some? ==> RequestChecks(write, 0, BatchRanges(batch), wire.value)
  {
    hide Address, Addresses, Layout, Packet, RequestChecks, WireSize, PayloadOf;
    if |batch| > 255 {
      return None;
    }
    var parameters: seq<byte>, data: seq<byte> := [FunctionCode(write), |batch|], [];
    ghost var items := ItemsOf(batch);
    NoAddresses();
    assert batch[..0] == [] && BatchRanges(batch[..0]) == [];
    for position := 0 to |batch|
      invariant AllAddressable(batch[..position])
      invariant parameters == [FunctionCode(write), |batch|] + Addresses(BatchRanges(batch[..position]))
      invariant write ==> forall i :: 0 <= i < position ==> LengthField(items[i]) < 0x1_0000
      invariant write && Sized(items) ==> data + Layout(items[position..]) == Layout(items)
      invariant !write ==> data == []
    {
      var piece := batch[position];
      if piece.size > 65535 || piece.start * 8 > 0xFF_FFFF {
        assert !Addressable(batch[position]);
        return None;
      }
      AddressStep(batch, position);
      parameters := parameters + Address(Range(1, piece.start, piece.size));
      if write {
        if piece.size * 8 > 65535 {
          assert LengthField(items[position]) > 65535;
          return None;
        }
        if Sized(items) {
          LayoutStep(items, position);
        }
        var record := WriteRecord(PayloadOf(piece), position + 1 < |batch|);
        data := data + record;
      }
    }
    assert batch[..|batch|] == batch;
    if write {
      NoLayout();
      assert items[|batch|..] == [] && data + [] == data;
    }
    if |data| > 65535 {
      return None;
    }
    SendableChecks(batch, write);
    return Some(Packet(1, 0, parameters, data));
  }

  lemma NoAddresses()
    ensures Addresses([]) == []
  {
  }

  lemma NoLayout()
    ensures Layout([]) == []
  {
  }

  // --- the peer's reply ---

  predicate Replies(batch: seq<Piece>, write: bool) {
    && |batch| < 256
    && (!write ==> Sized(AnswersOf(batch)) && |Layout(AnswersOf(batch))| < 0x1_0000)
  }

  lemma {:induction false} AnswerSize(batch: seq<Piece>)
    requires Sized(AnswersOf(batch))
    ensures |Layout(AnswersOf(batch))| <= DataSize(batch)
  {
    if batch == [] {
    } else {
      var items := AnswersOf(batch);
      assert items[1..] == AnswersOf(batch[1..]);
      AnswerSize(batch[1..]);
      assert |items[0].content| == if batch[0].item == 2 then 0 else batch[0].size;
    }
  }

  method AnswerBytes(piece: Piece, more: bool) returns (record: Option<seq<byte>>)
    ensures record.Some? <==> LengthField(AnswerOf(piece)) < 0x1_0000
    ensures record.Some? ==> record.value == Padded(AnswerOf(piece), more)
  {
    if piece.item == 2 {
      assert U16(0) == [0, 0];
      return Some([5, 0, 0, 0]);
    }
    if piece.size * 8 > 65535 {
      return None;
    }
    var data := [255, 4] + U16(piece.size * 8) + PayloadOf(piece);
    if more && piece.size % 2 == 1 {
      data := data + [0];
    }
    return Some(data);
  }

  /** The counts a client can have asked for: on a read, the size of every piece that is
      answered with data. A write is answered without looking at sizes. */
  predicate Asks(batch: seq<Piece>, write: bool, counts: seq<u16>) {
    && |counts| == |batch|
    && (!write ==> forall i :: 0 <= i < |batch| && batch[i].item != 2 ==> counts[i] == batch[i].size)
  }

  function ReplyAnswer(batch: seq<Piece>, write: bool): Answer {
    if write then Codes(CodesOf(batch)) else Records(AnswersOf(batch))
  }

  /** A status per written piece, or a record per piece read. */
  function ReplyPdu(reference: u16, batch: seq<Piece>, write: bool): seq<byte>
    requires Replies(batch, write)
  {
    Packet(3, reference, [FunctionCode(write), |batch|],
           if write then CodesOf(batch) else Layout(AnswersOf(batch)))
  }

  lemma ReplyFits(reference: u16, batch: seq<Piece>, write: bool)
    requires Replies(batch, write)
    ensures |ReplyPdu(reference, batch, write)| <= ReplySize(batch, write)
  {
    hide Layout, PayloadOf, Packet;
    if !write {
      AnswerSize(batch);
    }
    PacketSize(reference, [FunctionCode(write), |batch|], if write then CodesOf(batch) else Layout(AnswersOf(batch)));
  }

  /** Whoever asked for the batch, the session decoder takes the reply. */
  lemma ReplyIsAccepted(reference: u16, batch: seq<Piece>, write: bool, counts: seq<u16>)
    requires Replies(batch, write) && Asks(batch, write, counts)
    ensures ResponseOf(Query(write, reference, counts), ReplyPdu(reference, batch, write)) ==
            Accepted(if write then Statuses(CodesOf(batch)) else [])
  {
    hide Layout, PayloadOf, Packet, ResponseOf, AnswerPdu;
    var query, answer := Query(write, reference, counts), ReplyAnswer(batch, write);
    if !write {
      AllCheckIntro(Answering(counts), 0, AnswersOf(batch));
    }
    AnswerIsPacket(query, answer);
    AnswersAreAccepted(query, 3, 0, answer);
  }

  /** The reply never exceeds the planner's worst case, fails only when a length overflows,
      and is accepted with one status per written piece. */
  method ReplyBytes(reference: u16, batch: seq<Piece>, write: bool) returns (reply: Option<seq<byte>>)
    ensures reply.Some? <==> Replies(batch, write)
    ensures reply.Some? ==> reply.value == ReplyPdu(reference, batch, write) && |reply.value| <= ReplySize(batch, write)
    ensures reply.Some? ==>
              forall counts :: Asks(batch, write, counts) ==>
                ResponseOf(Query(write, reference, counts), reply.value) ==
                Accepted(if write then Statuses(CodesOf(batch)) else [])
  {
    hide Layout, Packet, ResponseOf, ReplySize, PayloadOf;
    if |batch| > 255 {
      return None;
    }
    var data: seq<byte> := [];
    ghost var items := AnswersOf(batch);
    for position := 0 to |batch|
      invariant write ==> data == CodesOf(batch)[..position]
      invariant !write ==> forall i :: 0 <= i < position ==> LengthField(items[i]) < 0x1_0000
      invariant !write && Sized(items) ==> data + Layout(items[position..]) == Layout(items)
    {
      var piece := batch[position];
      if write {
        data := data + [if piece.item == 2 then 5 else 255];
      } else {
        var record := AnswerBytes(piece, position + 1 < |batch|);
        if record.None? {
          return None;
        }
        if Sized(items) {
          LayoutStep(items, position);
        }
        data := data + record.value;
      }
    }
    NoLayout();
    assert items[|batch|..] == [] && data + [] == data && CodesOf(batch)[..|batch|] == CodesOf(batch);
    if |data| > 65535 {
      return None;
    }
    ReplyFits(reference, batch, write);
    forall counts | Asks(batch, write, counts)
      ensures ResponseOf(Query(write, reference, counts), ReplyPdu(reference, batch, write)) ==
              Accepted(if write then Statuses(CodesOf(batch)) else [])
    {
      ReplyIsAccepted(reference, batch, write, counts);
    }
    return Some(Packet(3, reference, [FunctionCode(write), |batch|], data));
  }

  lemma PacketSize(reference: u16, parameters: seq<byte>, data: seq<byte>)
    requires |parameters| < 0x1_0000 && |data| < 0x1_0000
    ensures |Packet(3, reference, parameters, data)| == 12 + |parameters| + |data|
  {
  }
}
