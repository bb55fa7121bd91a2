/** Oversized items: the planner's chunks are as large as the wire allows, and so as few as
    any division of the item can have. */
module PlannerChunks {
  import opened Bytes
  import opened Planner
  import opened PlannerProofs

  lemma WireOfOne(piece: Piece, pdu: nat, write: bool)
    ensures OnTheWire([piece], pdu, write) <==>
            if write then 28 + piece.size <= pdu else 24 <= pdu && 18 + piece.size <= pdu
  {
    OneOnTheWire(piece, write);
  }

  /** Every chunk but the last fills the PDU. */
  lemma {:induction false} FullChunks(item: nat, base: nat, size: nat, offset: nat, maximum: int, k: nat)
    requires k + 1 < |Chunks(item, base, size, offset, maximum)|
    ensures Chunks(item, base, size, offset, maximum)[k].size == maximum
    decreases k
  {
    var chunks := Chunks(item, base, size, offset, maximum);
    assert chunks[1..] == Chunks(item, base, size, offset + maximum, maximum);
    if k == 0 {
    } else {
      FullChunks(item, base, size, offset + maximum, maximum, k - 1);
    }
  }

  /** A chunk with another one behind it could not have carried one more octet. */
  lemma ChunksAreLargest(sizes: seq<nat>, item: nat, pdu: nat, write: bool, k: nat)
    requires item < |sizes| && pdu >= MinPdu(write)
    requires k + 1 < |ItemPieces(sizes, item, pdu, write)|
    ensures var piece := ItemPieces(sizes, item, pdu, write)[k];
            !OnTheWire([piece.(size := piece.size + 1)], pdu, write)
  {
    hide OnTheWire, AloneFits;
    var piece := ItemPieces(sizes, item, pdu, write)[k];
    FullChunks(item, Base(|sizes|, item), sizes[item], 0, Maximum(pdu, write), k);
    WireOfOne(piece.(size := piece.size + 1), pdu, write);
  }

  predicate AtMost(pieces: seq<Piece>, maximum: nat) {
    forall i :: 0 <= i < |pieces| ==> pieces[i].size <= maximum
  }

  /** Full chunks stay ahead of any other division into pieces no larger. */
  lemma {:induction false} ChunksAhead(
    item: nat, base: nat, size: nat, offset: nat, maximum: nat, other: seq<Piece>, start: nat, from: nat)
    requires maximum > 0 && from <= offset && Tiles(other, item, start, from, size) && AtMost(other, maximum)
    ensures |Chunks(item, base, size, offset, maximum)| <= |other|
    decreases |other|
  {
    if other == [] {
    } else if offset < size {
      assert other[0].size <= maximum && AtMost(other[1..], maximum);
      ChunksAhead(item, base, size, offset + maximum, maximum, other[1..], start, from + other[0].size);
    }
  }

  /** No division of an item into pieces that each travel alone has fewer of them. */
  lemma FewestPieces(sizes: seq<nat>, item: nat, other: seq<Piece>, start: nat, pdu: nat, write: bool)
    requires item < |sizes| && sizes[item] > 0 && pdu >= MinPdu(write)
    requires Tiles(other, item, start, 0, sizes[item])
    requires forall i :: 0 <= i < |other| ==> OnTheWire([other[i]], pdu, write)
    ensures |ItemPieces(sizes, item, pdu, write)| <= |other|
  {
    hide OnTheWire;
    var maximum: nat := if write then pdu - 28 else pdu - 18;
    forall i | 0 <= i < |other| ensures other[i].size <= maximum {
      WireOfOne(other[i], pdu, write);
    }
    if !AloneFits(sizes[item], pdu, write) {
      ChunksAhead(item, Base(|sizes|, item), sizes[item], 0, maximum, other, start, 0);
    }
  }

  /** Items are addressed 2048 octets apart, the last one at zero, and every piece at its
      own offset behind its item's address. */
  lemma PiecesAreAddressed(sizes: seq<nat>, item: nat, pdu: nat, write: bool, k: nat)
    requires item < |sizes| && pdu >= MinPdu(write) && k < |ItemPieces(sizes, item, pdu, write)|
    ensures var piece := ItemPieces(sizes, item, pdu, write)[k];
            piece.item == item && piece.start == piece.offset + (if item == |sizes| - 1 then 0 else 2048 * item)
  {
    EveryItemDelivered(sizes, item, pdu, write);
    hide ItemPieces;
    TilesAddress(ItemPieces(sizes, item, pdu, write), item, Base(|sizes|, item), 0, sizes[item], k);
  }

  lemma {:induction false} TilesAddress(
    pieces: seq<Piece>, item: nat, base: nat, from: nat, to: nat, k: nat)
    requires Tiles(pieces, item, base, from, to) && k < |pieces|
    ensures pieces[k].item == item && pieces[k].start == base + pieces[k].offset
    decreases k
  {
    if k == 0 {
    } else {
      TilesAddress(pieces[1..], item, base, from + pieces[0].size, to, k - 1);
    }
  }
}
