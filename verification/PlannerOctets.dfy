/** The octets of a planned batch on the wire, and of the peer's reply to it. */
module PlannerOctets {
  import opened Bytes
  import opened Wire
  import opened Multi
  import opened Planner
  import opened PlannerProofs
  import opened PlannerWire
  import opened WireOctets

  /** Data octets of a piece, at `at`: a function of its item and of the offset within it. */
  predicate CarriesPiece(p: seq<byte>, at: nat, piece: Piece) {
    && at + piece.size <= |p|
    && var carried := p[at..at + piece.size];
       forall k :: 0 <= k < piece.size ==> carried[k] == (piece.item * 29 + (piece.offset + k) * 37 + 11) % 256
  }

  /** Where the record of piece `i` starts in a data section; a piece the peer rejects has an
      empty record in its reply. */
  function PieceOffset(batch: seq<Piece>, reply: bool, i: nat): nat
    requires i <= |batch|
  {
    if i == 0 then 0
    else
      var size := if reply && batch[0].item == 2 then 0 else batch[0].size;
      4 + size + size % 2 + PieceOffset(batch[1..], reply, i - 1)
  }

  /** The record of one piece: code, transport 4, the length in bits, and the octets. */
  predicate PieceRecord(p: seq<byte>, at: nat, code: byte, piece: Piece, more: bool) {
    && at + 4 + piece.size <= |p| && p[at] == code && p[at + 1] == 4 && Be16(p, at + 2) == 8 * piece.size
    && CarriesPiece(p, at + 4, piece)
    && (more && piece.size % 2 == 1 ==> at + 4 + piece.size < |p| && p[at + 4 + piece.size] == 0)
  }

  lemma RecordCarries(p: seq<byte>, at: nat, code: byte, piece: Piece, more: bool)
    requires RecordAt(p, at, Item(code, 4, PayloadOf(piece), 0), more)
    ensures PieceRecord(p, at, code, piece, more)
  {
    assert p[at + 4..at + 4 + piece.size] == PayloadOf(piece);
  }

  lemma {:induction false} SentOffsets(batch: seq<Piece>, i: nat)
    requires i <= |batch|
    ensures Offset(ItemsOf(batch), i) == PieceOffset(batch, false, i)
  {
    hide PayloadOf;
    if i == 0 {
    } else {
      assert ItemsOf(batch)[1..] == ItemsOf(batch[1..]);
      SentOffsets(batch[1..], i - 1);
    }
  }

  lemma {:induction false} AnswerOffsets(batch: seq<Piece>, i: nat)
    requires i <= |batch|
    ensures Offset(AnswersOf(batch), i) == PieceOffset(batch, true, i)
  {
    hide PayloadOf;
    if i == 0 {
    } else {
      assert AnswersOf(batch)[1..] == AnswersOf(batch[1..]);
      AnswerOffsets(batch[1..], i - 1);
    }
  }

  /** The head of a batch's request: reference 0, the function, the piece count, and a range
      of data block 1 per piece. */
  lemma SentHead(batch: seq<Piece>, write: bool)
    requires Travels(batch, write)
    ensures var p := SentPdu(batch, write);
            && |p| >= 12 && p[0] == 0x32 && p[1] == 1 && p[2] == 0 && p[3] == 0 && Be16(p, 4) == 0
            && Be16(p, 6) == 2 + 12 * |batch| && Be16(p, 8) == |p| - 12 - 12 * |batch|
            && p[10] == (if write then 5 else 4) && p[11] == |batch|
            && (forall i :: 0 <= i < |batch| ==> SpellsRange(p, 12 + 12 * i, Range(1, batch[i].start, batch[i].size)))
            && (!write ==> |p| == 12 + 12 * |batch|)
  {
    hide Addresses, Layout, Packet, SpellsRange;
    var p, ranges := SentPdu(batch, write), BatchRanges(batch);
    var parameters: seq<byte> := [FunctionCode(write), |batch|] + Addresses(ranges);
    PacketOctets(1, 0, parameters, if write then Layout(ItemsOf(batch)) else []);
    hide SentPdu;
    assert p[10..12 + 12 * |batch|] == parameters;
    HeadSpells(p, ranges, FunctionCode(write));
  }

  /** The records of a batch's write request. */
  lemma SentRecords(batch: seq<Piece>, i: nat)
    requires Travels(batch, true) && i < |batch|
    ensures PieceRecord(SentPdu(batch, true), 12 + 12 * |batch| + PieceOffset(batch, false, i), 0, batch[i],
                        i + 1 < |batch|)
  {
    hide Addresses, Layout, Packet, Offset, PieceOffset, RecordAt, PieceRecord, PayloadOf;
    var p, items, at := SentPdu(batch, true), ItemsOf(batch), 12 + 12 * |batch|;
    PacketEndsInData(1, 0, [5, |batch|] + Addresses(BatchRanges(batch)), Layout(items));
    hide SentPdu;
    RecordsBehind(p[..at], items, i);
    SentOffsets(batch, i);
    RecordCarries(p, at + PieceOffset(batch, false, i), 0, batch[i], i + 1 < |batch|);
  }

  /** The head of a reply, and all of it when a write is answered: item 2 is rejected. */
  lemma ReplyHead(reference: u16, batch: seq<Piece>, write: bool)
    requires Replies(batch, write)
    ensures var p := ReplyPdu(reference, batch, write);
            && |p| >= 14 && p[0] == 0x32 && p[1] == 3 && p[2] == 0 && p[3] == 0 && Be16(p, 4) == reference
            && Be16(p, 6) == 2 && Be16(p, 8) == |p| - 14 && p[10] == 0 && p[11] == 0
            && p[12] == (if write then 5 else 4) && p[13] == |batch|
            && (write ==>
                  && |p| == 14 + |batch|
                  && forall i :: 0 <= i < |batch| ==> p[14 + i] == (if batch[i].item == 2 then 5 else 255))
  {
    hide Layout, Packet;
    var p, data := ReplyPdu(reference, batch, write), if write then CodesOf(batch) else Layout(AnswersOf(batch));
    PacketOctets(3, reference, [FunctionCode(write), |batch|], data);
    assert p[12] == p[12..14][0] && p[13] == p[12..14][1];
    if write {
      assert forall i :: 0 <= i < |batch| ==> p[14 + i] == p[14..][i];
    }
  }

  /** The records of a reply to a read: the rejected item is empty with code 5. */
  lemma ReplyRecords(reference: u16, batch: seq<Piece>, i: nat)
    requires Replies(batch, false) && i < |batch|
    ensures var p, at := ReplyPdu(reference, batch, false), 14 + PieceOffset(batch, true, i);
            if batch[i].item == 2 then at + 4 <= |p| && p[at] == 5 && p[at + 1] == 0 && Be16(p, at + 2) == 0
            else PieceRecord(p, at, 255, batch[i], i + 1 < |batch|)
  {
    hide Layout, Packet, Offset, PieceOffset, PayloadOf;
    var p, items := ReplyPdu(reference, batch, false), AnswersOf(batch);
    PacketEndsInData(3, reference, [4, |batch|], Layout(items));
    hide ReplyPdu, PieceRecord;
    RecordsBehind(p[..14], items, i);
    AnswerOffsets(batch, i);
    if batch[i].item != 2 {
      RecordCarries(p, 14 + PieceOffset(batch, true, i), 255, batch[i], i + 1 < |batch|);
    }
  }
}
