/** The multi-item batch planner: a greedy packer under an item limit, a request
    budget and a response budget, which chunks items too large to travel alone. */
module Planner {
  import opened Bytes

  datatype Piece = Piece(item: nat, start: nat, offset: nat, size: nat)

  const ITEM_LIMIT := 20

  /** A record as the planner reserves it: four octets of header, content, padding. */
  function Contribution(size: nat): nat { 4 + size + size % 2 }

  function RequestCost(size: nat, write: bool): nat { 12 + (if write then Contribution(size) else 0) }

  function ResponseCost(size: nat, write: bool): nat { if write then 1 else Contribution(size) }

  predicate AloneFits(size: nat, pdu: nat, write: bool) {
    12 + RequestCost(size, write) <= pdu && 14 + ResponseCost(size, write) <= pdu
  }

  /** The chunk size for items that do not fit alone; not positive when the PDU is too small. */
  function Maximum(pdu: nat, write: bool): int { pdu - (if write then 28 else 18) }

  /** The last item is addressed at zero, every other at its own 2048-octet slot. */
  function Base(count: nat, item: nat): nat { if item + 1 == count then 0 else item * 2048 }

  function Chunks(item: nat, base: nat, size: nat, offset: nat, maximum: int): seq<Piece>
    decreases size - offset
  {
    if maximum <= 0 || offset >= size then []
    else
      [Chunk(item, base, size, offset, maximum)] + Chunks(item, base, size, offset + maximum, maximum)
  }

  /** The pieces one item travels in. */
  function ItemPieces(sizes: seq<nat>, item: nat, pdu: nat, write: bool): seq<Piece>
    requires item < |sizes|
  {
    var base := Base(|sizes|, item);
    if AloneFits(sizes[item], pdu, write) then [Piece(item, base, 0, sizes[item])]
    else Chunks(item, base, sizes[item], 0, Maximum(pdu, write))
  }

  function PiecesUpTo(sizes: seq<nat>, n: nat, pdu: nat, write: bool): seq<Piece>
    requires n <= |sizes|
  {
    if n == 0 then [] else PiecesUpTo(sizes, n - 1, pdu, write) + ItemPieces(sizes, n - 1, pdu, write)
  }

  function Flatten<T>(batches: seq<seq<T>>): seq<T> {
    if batches == [] then [] else batches[0] + Flatten(batches[1..])
  }

  lemma {:induction false} FlattenAppend<T>(a: seq<seq<T>>, b: seq<seq<T>>)
    ensures Flatten(a + b) == Flatten(a) + Flatten(b)
  {
    if a == [] {
      assert a + b == b;
    } else {
      assert (a + b)[1..] == a[1..] + b;
      FlattenAppend(a[1..], b);
    }
  }

  lemma FlattenSnoc<T>(a: seq<seq<T>>, x: seq<T>)
    ensures Flatten(a + [x]) == Flatten(a) + x
  {
    FlattenAppend(a, [x]);
    assert Flatten([x]) == x + Flatten([]);
  }

  // --- budgets ---

  lemma {:induction false} FlattenMember<T>(batches: seq<seq<T>>, k: nat, i: nat)
    requires k < |batches| && i < |batches[k]|
    ensures batches[k][i] in Flatten(batches)
  {
    if k == 0 {
      assert Flatten(batches)[i] == batches[0][i];
    } else {
      FlattenMember(batches[1..], k - 1, i);
    }
  }

  function RequestSum(batch: seq<Piece>, write: bool): nat {
    if batch == [] then 0 else RequestCost(batch[0].size, write) + RequestSum(batch[1..], write)
  }

  function ResponseSum(batch: seq<Piece>, write: bool): nat {
    if batch == [] then 0 else ResponseCost(batch[0].size, write) + ResponseSum(batch[1..], write)
  }

  lemma {:induction false} SumsAppend(a: seq<Piece>, b: seq<Piece>, write: bool)
    ensures RequestSum(a + b, write) == RequestSum(a, write) + RequestSum(b, write)
    ensures ResponseSum(a + b, write) == ResponseSum(a, write) + ResponseSum(b, write)
  {
    if a == [] {
      assert a + b == b;
    } else {
      assert (a + b)[1..] == a[1..] + b;
      SumsAppend(a[1..], b, write);
    }
  }

  lemma SumsOne(piece: Piece, write: bool)
    ensures RequestSum([piece], write) == RequestCost(piece.size, write)
    ensures ResponseSum([piece], write) == ResponseCost(piece.size, write)
  {
  }

  /** A batch within the limit and both reserved budgets. */
  predicate Feasible(batch: seq<Piece>, pdu: nat, write: bool) {
    1 <= |batch| <= ITEM_LIMIT && 12 + RequestSum(batch, write) <= pdu && 14 + ResponseSum(batch, write) <= pdu
  }

  /** Any nonempty run of consecutive pieces of a feasible batch is feasible. */
  lemma SubFeasible(a: seq<Piece>, b: seq<Piece>, c: seq<Piece>, pdu: nat, write: bool)
    requires Feasible(a + b + c, pdu, write) && b != []
    ensures Feasible(b, pdu, write)
  {
    SumsAppend(a + b, c, write);
    SumsAppend(a, b, write);
  }

  /** Octets of the data section actually sent: padding between records only. */
  function DataSize(batch: seq<Piece>): nat {
    if batch == [] then 0
    else 4 + batch[0].size + (if |batch| > 1 then batch[0].size % 2 else 0) + DataSize(batch[1..])
  }

  function WireSize(batch: seq<Piece>, write: bool): nat {
    12 + 12 * |batch| + (if write then DataSize(batch) else 0)
  }

  /** The largest successful response. */
  function ReplySize(batch: seq<Piece>, write: bool): nat {
    14 + (if write then |batch| else DataSize(batch))
  }

  predicate OnTheWire(batch: seq<Piece>, pdu: nat, write: bool) {
    1 <= |batch| <= ITEM_LIMIT && WireSize(batch, write) <= pdu && ReplySize(batch, write) <= pdu
  }

  /** The reserve exceeds the wire by the padding of the last record, and by nothing else. */
  lemma {:induction false} ReserveIsPadding(batch: seq<Piece>, write: bool)
    requires batch != []
    ensures var pad := batch[|batch| - 1].size % 2;
            && 12 + RequestSum(batch, write) == WireSize(batch, write) + (if write then pad else 0)
            && 14 + ResponseSum(batch, write) == ReplySize(batch, write) + (if write then 0 else pad)
  {
    if |batch| > 1 {
      ReserveIsPadding(batch[1..], write);
      assert batch[1..][|batch[1..]| - 1] == batch[|batch| - 1];
      assert DataSize(batch) == Contribution(batch[0].size) + DataSize(batch[1..]);
    } else {
      assert batch[1..] == [];
      assert DataSize(batch) == 4 + batch[0].size;
    }
  }

  lemma OneOnTheWire(piece: Piece, write: bool)
    ensures WireSize([piece], write) == 24 + (if write then 4 + piece.size else 0)
    ensures ReplySize([piece], write) == 14 + (if write then 1 else 4 + piece.size)
  {
    assert [piece][1..] == [];
    assert DataSize([piece]) == 4 + piece.size;
  }

  lemma {:induction false} SumsEven(batch: seq<Piece>, write: bool)
    ensures RequestSum(batch, write) % 2 == 0
    ensures !write ==> ResponseSum(batch, write) % 2 == 0
  {
    if batch == [] {
    } else {
      SumsEven(batch[1..], write);
    }
  }

  lemma FeasibleOnTheWire(batch: seq<Piece>, pdu: nat, write: bool)
    requires Feasible(batch, pdu, write)
    ensures OnTheWire(batch, pdu, write)
  {
    ReserveIsPadding(batch, write);
  }

  // --- the planner ---

  /** Feasible batches, each of which could not have taken the next piece as well. */
  predicate GreedyPlan(plan: seq<seq<Piece>>, pdu: nat, write: bool) {
    && (forall k :: 0 <= k < |plan| ==> Feasible(plan[k], pdu, write))
    && (forall k :: 0 <= k < |plan| - 1 ==> TightAt(plan, k, pdu, write))
  }

  /** Batch `k` could not also have taken the first piece of the next one. */
  predicate TightAt(plan: seq<seq<Piece>>, k: nat, pdu: nat, write: bool)
    requires k + 1 < |plan|
  {
    |plan[k + 1]| > 0 && !Feasible(plan[k] + [plan[k + 1][0]], pdu, write)
  }

  function Open(batches: seq<seq<Piece>>, selected: seq<Piece>): seq<seq<Piece>> {
    if selected == [] then batches else batches + [selected]
  }

  /** The piece is an item that fits a batch of its own; other pieces are chunks. */
  predicate WholeItem(sizes: seq<nat>, pdu: nat, write: bool, piece: Piece) {
    piece.item < |sizes| && AloneFits(sizes[piece.item], pdu, write)
  }

  predicate WholeBatch(sizes: seq<nat>, pdu: nat, write: bool, batch: seq<Piece>) {
    forall i :: 0 <= i < |batch| ==> WholeItem(sizes, pdu, write, batch[i])
  }

  /** A batch of whole items within every budget, or one chunk on its own. */
  predicate BatchShape(sizes: seq<nat>, pdu: nat, write: bool, batch: seq<Piece>) {
    || (WholeBatch(sizes, pdu, write, batch) && Feasible(batch, pdu, write))
    || (|batch| == 1 && !WholeBatch(sizes, pdu, write, batch))
  }

  /** Neighbouring batches of whole items could not have shared one more item. */
  predicate PairShape(sizes: seq<nat>, pdu: nat, write: bool, plan: seq<seq<Piece>>, k: nat)
    requires k + 1 < |plan|
  {
    WholeBatch(sizes, pdu, write, plan[k]) && WholeBatch(sizes, pdu, write, plan[k + 1]) ==>
      TightAt(plan, k, pdu, write)
  }

  /** What the planner's batches look like, chunked items included. */
  predicate PlanShape(sizes: seq<nat>, pdu: nat, write: bool, plan: seq<seq<Piece>>) {
    && (forall k :: 0 <= k < |plan| ==> BatchShape(sizes, pdu, write, plan[k]))
    && (forall k :: 0 <= k < |plan| - 1 ==> PairShape(sizes, pdu, write, plan, k))
  }

  /** What the planner returns for a list of item sizes. */
  predicate Planned(sizes: seq<nat>, pdu: nat, write: bool, plan: seq<seq<Piece>>) {
    PlanShape(sizes, pdu, write, plan) && Flatten(plan) == PiecesUpTo(sizes, |sizes|, pdu, write)
  }

  /** The batches end in a chunk, if at all: nothing can be added to the last one. */
  predicate ChunkLast(sizes: seq<nat>, pdu: nat, write: bool, batches: seq<seq<Piece>>) {
    batches == [] || !WholeBatch(sizes, pdu, write, batches[|batches| - 1])
  }

  lemma ExtendShape(
    sizes: seq<nat>, batches: seq<seq<Piece>>, selected: seq<Piece>, piece: Piece, pdu: nat, write: bool)
    requires PlanShape(sizes, pdu, write, Open(batches, selected)) && WholeBatch(sizes, pdu, write, selected)
    requires selected == [] ==> ChunkLast(sizes, pdu, write, batches)
    requires WholeItem(sizes, pdu, write, piece) && Feasible(selected + [piece], pdu, write)
    ensures PlanShape(sizes, pdu, write, Open(batches, selected + [piece]))
    ensures WholeBatch(sizes, pdu, write, selected + [piece])
  {
    hide Feasible, WholeItem;
    var before, after := Open(batches, selected), Open(batches, selected + [piece]);
    forall k | 0 <= k < |after| ensures BatchShape(sizes, pdu, write, after[k]) {
      assert k < |batches| ==> after[k] == before[k];
    }
    forall k: nat | k < |after| - 1 ensures PairShape(sizes, pdu, write, after, k) {
      if selected != [] {
        assert PairShape(sizes, pdu, write, before, k);
      } else if k < |before| - 1 {
        assert PairShape(sizes, pdu, write, before, k);
      }
    }
  }

  lemma OpenShape(
    sizes: seq<nat>, batches: seq<seq<Piece>>, selected: seq<Piece>, piece: Piece, pdu: nat, write: bool)
    requires PlanShape(sizes, pdu, write, Open(batches, selected)) && selected != []
    requires WholeItem(sizes, pdu, write, piece) && Feasible([piece], pdu, write)
    requires !Feasible(selected + [piece], pdu, write)
    ensures PlanShape(sizes, pdu, write, Open(Open(batches, selected), [piece]))
    ensures WholeBatch(sizes, pdu, write, [piece])
  {
    hide Feasible, WholeItem;
    var before := Open(batches, selected);
    var after := before + [[piece]];
    forall k: nat | k < |after| - 1 ensures PairShape(sizes, pdu, write, after, k) {
      if k < |before| - 1 {
        assert PairShape(sizes, pdu, write, before, k);
      }
    }
  }

  /** One-piece batches of one item. */
  predicate ChunksOf(batches: seq<seq<Piece>>, item: nat) {
    forall k :: 0 <= k < |batches| ==> |batches[k]| == 1 && batches[k][0].item == item
  }

  lemma ChunkShape(
    sizes: seq<nat>, batches: seq<seq<Piece>>, chunks: seq<seq<Piece>>, item: nat, pdu: nat, write: bool)
    requires item < |sizes| && !AloneFits(sizes[item], pdu, write)
    requires PlanShape(sizes, pdu, write, batches)
    requires ChunksOf(chunks, item)
    requires chunks == [] ==> sizes[item] == 0 || Maximum(pdu, write) < 0
    ensures PlanShape(sizes, pdu, write, Open(batches + chunks, [])) && ChunkLast(sizes, pdu, write, batches + chunks)
    ensures WholeBatch(sizes, pdu, write, [])
  {
    hide Feasible;
    var after := batches + chunks;
    forall k | 0 <= k < |chunks| ensures !WholeBatch(sizes, pdu, write, chunks[k]) {
      assert !WholeItem(sizes, pdu, write, chunks[k][0]);
    }
    forall k: nat | k < |after| - 1 ensures PairShape(sizes, pdu, write, after, k) {
      if k < |batches| - 1 {
        assert PairShape(sizes, pdu, write, batches, k);
      }
    }
    if chunks == [] && batches != [] {
      assert after == batches;
      NothingFits(sizes, pdu, write, item, batches[|batches| - 1]);
    }
  }

  lemma NothingFits(sizes: seq<nat>, pdu: nat, write: bool, item: nat, batch: seq<Piece>)
    requires item < |sizes| && !AloneFits(sizes[item], pdu, write)
    requires sizes[item] == 0 || Maximum(pdu, write) < 0
    requires BatchShape(sizes, pdu, write, batch)
    ensures !WholeBatch(sizes, pdu, write, batch)
  {
    assert |batch| >= 1;
    var first := batch[0];
    assert !WholeItem(sizes, pdu, write, first);
  }

  predicate Bounded(batches: seq<seq<Piece>>, pdu: nat, write: bool) {
    && (forall k :: 0 <= k < |batches| ==> 1 <= |batches[k]| <= ITEM_LIMIT)
    && (pdu >= MinPdu(write) ==> forall k :: 0 <= k < |batches| ==> OnTheWire(batches[k], pdu, write))
  }

  /** The smallest PDU that can carry any item, in chunks if need be. */
  function MinPdu(write: bool): nat { if write then 29 else 24 }

  function Chunk(item: nat, base: nat, size: nat, offset: nat, maximum: nat): Piece
    requires offset < size
  {
    Piece(item, base + offset, offset, if maximum < size - offset then maximum else size - offset)
  }

  lemma ChunkBounded(batches: seq<seq<Piece>>, piece: Piece, pdu: nat, write: bool)
    requires Bounded(batches, pdu, write) && piece.size <= Maximum(pdu, write)
    ensures Bounded(batches + [[piece]], pdu, write)
    ensures Flatten(batches + [[piece]]) == Flatten(batches) + [piece]
    ensures ChunksOf(batches, piece.item) ==> ChunksOf(batches + [[piece]], piece.item)
  {
    OneOnTheWire(piece, write);
    FlattenSnoc(batches, [piece]);
  }

  /** Emits an oversized item as consecutive singleton batches. */
  method PlanChunks(item: nat, base: nat, size: nat, pdu: nat, write: bool) returns (batches: seq<seq<Piece>>)
    requires Maximum(pdu, write) != 0
    ensures Flatten(batches) == Chunks(item, base, size, 0, Maximum(pdu, write))
    ensures Bounded(batches, pdu, write)
    ensures ChunksOf(batches, item)
    ensures batches == [] ==> size == 0 || Maximum(pdu, write) < 0
  {
    batches := [];
    var maximum := Maximum(pdu, write);
    if maximum < 0 {
      return;
    }
    EmptyPlan([], pdu, write);
    assert ChunksOf(batches, item);
    hide Bounded, Flatten, Maximum, ChunksOf, Chunks;
    var offset: nat := 0;
    ghost var all := Chunks(item, base, size, 0, maximum);
    while offset < size
      invariant Flatten(batches) + Chunks(item, base, size, offset, maximum) == all
      invariant Bounded(batches, pdu, write)
      invariant ChunksOf(batches, item)
      invariant batches == [] ==> offset == 0
    {
      var piece := Chunk(item, base, size, offset, maximum);
      ChunksStep(item, base, size, offset, maximum, Flatten(batches));
      ChunkBounded(batches, piece, pdu, write);
      batches := batches + [[piece]];
      offset := offset + maximum;
    }
    ChunksDone(item, base, size, offset, maximum, Flatten(batches));
  }

  lemma ChunksStep(item: nat, base: nat, size: nat, offset: nat, maximum: nat, done: seq<Piece>)
    requires offset < size && maximum > 0
    ensures done + Chunks(item, base, size, offset, maximum) ==
            done + [Chunk(item, base, size, offset, maximum)] + Chunks(item, base, size, offset + maximum, maximum)
  {
  }

  lemma ChunksDone(item: nat, base: nat, size: nat, offset: nat, maximum: nat, done: seq<Piece>)
    requires offset >= size
    ensures done + Chunks(item, base, size, offset, maximum) == done
  {
  }

  lemma FeasibleStep(selected: seq<Piece>, piece: Piece, pdu: nat, write: bool)
    ensures RequestSum(selected + [piece], write) == RequestSum(selected, write) + RequestCost(piece.size, write)
    ensures ResponseSum(selected + [piece], write) == ResponseSum(selected, write) + ResponseCost(piece.size, write)
    ensures Feasible(selected + [piece], pdu, write) <==>
            && |selected| < ITEM_LIMIT
            && 12 + RequestSum(selected, write) + RequestCost(piece.size, write) <= pdu
            && 14 + ResponseSum(selected, write) + ResponseCost(piece.size, write) <= pdu
  {
    SumsOne(piece, write);
    SumsAppend(selected, [piece], write);
  }

  lemma AloneFeasible(piece: Piece, pdu: nat, write: bool)
    ensures Feasible([piece], pdu, write) <==> AloneFits(piece.size, pdu, write)
    ensures RequestSum([piece], write) == RequestCost(piece.size, write)
    ensures ResponseSum([piece], write) == ResponseCost(piece.size, write)
  {
    SumsOne(piece, write);
  }

  lemma PiecesStep(sizes: seq<nat>, item: nat, pdu: nat, write: bool)
    requires item < |sizes|
    ensures PiecesUpTo(sizes, item + 1, pdu, write) ==
            PiecesUpTo(sizes, item, pdu, write) + ItemPieces(sizes, item, pdu, write)
  {
  }

  predicate AllAlone(sizes: seq<nat>, n: nat, pdu: nat, write: bool)
    requires n <= |sizes|
  {
    forall i :: 0 <= i < n ==> AloneFits(sizes[i], pdu, write)
  }

  /** Closes the batch under construction. */
  method Flush(batches: seq<seq<Piece>>, selected: seq<Piece>, pdu: nat, write: bool)
    returns (closed: seq<seq<Piece>>)
    requires Bounded(batches, pdu, write) && (selected == [] || Feasible(selected, pdu, write))
    ensures closed == Open(batches, selected)
    ensures Flatten(closed) == Flatten(batches) + selected && Bounded(closed, pdu, write)
  {
    if selected == [] {
      return batches;
    }
    FeasibleOnTheWire(selected, pdu, write);
    FlattenSnoc(batches, selected);
    closed := batches + [selected];
  }

  method Plan(sizes: seq<nat>, pdu: nat, write: bool) returns (plan: Option<seq<seq<Piece>>>)
    ensures plan.None? <==>
            Maximum(pdu, write) == 0 && !AllAlone(sizes, |sizes|, pdu, write)
    ensures plan.Some? ==> Planned(sizes, pdu, write, plan.value) && Bounded(plan.value, pdu, write)
  {
    hide AloneFits, ItemPieces, RequestCost, ResponseCost, Contribution, WholeItem, ChunksOf;
    hide Feasible, Bounded, GreedyPlan, PlanShape, ChunkLast, WholeBatch, Chunks;
    hide RequestSum, ResponseSum, Flatten, PiecesUpTo, Open, AllAlone;
    var batches: seq<seq<Piece>>, selected: seq<Piece> := [], [];
    var request, response := 12, 14;
    EmptyPlan(sizes, pdu, write);
    for item := 0 to |sizes|
      invariant Maximum(pdu, write) == 0 ==> AllAlone(sizes, item, pdu, write)
      invariant Flatten(batches) + selected == PiecesUpTo(sizes, item, pdu, write)
      invariant Bounded(batches, pdu, write)
      invariant request == 12 + RequestSum(selected, write) && response == 14 + ResponseSum(selected, write)
      invariant |selected| <= ITEM_LIMIT && (selected == [] || Feasible(selected, pdu, write))
      invariant PlanShape(sizes, pdu, write, Open(batches, selected)) && WholeBatch(sizes, pdu, write, selected)
      invariant selected == [] ==> ChunkLast(sizes, pdu, write, batches)
    {
      var size := sizes[item];
      var base := if item + 1 == |sizes| then 0 else item * 2048;
      var contribution := 4 + size + size % 2;
      var aloneFits := 12 + 12 + (if write then contribution else 0) <= pdu
                       && 14 + (if write then 1 else contribution) <= pdu;
      PiecesStep(sizes, item, pdu, write);
      AllAloneStep(sizes, item, pdu, write);
      ItemFacts(sizes, item, pdu, write);
      if !aloneFits {
        if Maximum(pdu, write) == 0 {
          return None;
        }
        batches := Flush(batches, selected, pdu, write);
        selected, request, response := [], 12, 14;
        var chunks := PlanChunks(item, base, size, pdu, write);
        ChunkShape(sizes, batches, chunks, item, pdu, write);
        FlattenAppend(batches, chunks);
        BoundedAppend(batches, chunks, pdu, write);
        batches := batches + chunks;
      } else {
        var piece := Piece(item, base, 0, size);
        var nextRequest := request + 12 + (if write then contribution else 0);
        var nextResponse := response + (if write then 1 else contribution);
        Packed(sizes, batches, selected, piece, pdu, write);
        if |selected| == ITEM_LIMIT || nextRequest > pdu || nextResponse > pdu {
          batches := Flush(batches, selected, pdu, write);
          selected, request, response := [], 12, 14;
        }
        selected := selected + [piece];
        request := request + 12 + (if write then contribution else 0);
        response := response + (if write then 1 else contribution);
      }
    }
    batches := Flush(batches, selected, pdu, write);
    return Some(batches);
  }

  /** The planner's own arithmetic for one item. */
  lemma ItemFacts(sizes: seq<nat>, item: nat, pdu: nat, write: bool)
    requires item < |sizes|
    ensures var size, contribution := sizes[item], 4 + sizes[item] + sizes[item] % 2;
            && RequestCost(size, write) == 12 + (if write then contribution else 0)
            && ResponseCost(size, write) == (if write then 1 else contribution)
            && (AloneFits(size, pdu, write) <==>
                  12 + RequestCost(size, write) <= pdu && 14 + ResponseCost(size, write) <= pdu)
            && (var piece := Piece(item, Base(|sizes|, item), 0, size);
                && (WholeItem(sizes, pdu, write, piece) <==> AloneFits(size, pdu, write))
                && ItemPieces(sizes, item, pdu, write) ==
                   if AloneFits(size, pdu, write) then [piece]
                   else Chunks(item, Base(|sizes|, item), size, 0, Maximum(pdu, write)))
  {
  }

  lemma AllAloneStep(sizes: seq<nat>, item: nat, pdu: nat, write: bool)
    requires item < |sizes|
    ensures AllAlone(sizes, item + 1, pdu, write) <==>
            AllAlone(sizes, item, pdu, write) && AloneFits(sizes[item], pdu, write)
    ensures !AllAlone(sizes, item + 1, pdu, write) ==> !AllAlone(sizes, |sizes|, pdu, write)
  {
    if AllAlone(sizes, |sizes|, pdu, write) {
      assert AllAlone(sizes, item + 1, pdu, write);
    }
  }

  /** One packing step: a full batch is closed before the piece opens the next. */
  lemma Packed(sizes: seq<nat>, batches: seq<seq<Piece>>, selected: seq<Piece>, piece: Piece, pdu: nat, write: bool)
    requires AloneFits(piece.size, pdu, write) && WholeItem(sizes, pdu, write, piece)
    requires |selected| <= ITEM_LIMIT && (selected == [] || Feasible(selected, pdu, write))
    requires PlanShape(sizes, pdu, write, Open(batches, selected)) && WholeBatch(sizes, pdu, write, selected)
    requires selected == [] ==> ChunkLast(sizes, pdu, write, batches)
    ensures var full := |selected| == ITEM_LIMIT
                        || 12 + RequestSum(selected, write) + RequestCost(piece.size, write) > pdu
                        || 14 + ResponseSum(selected, write) + ResponseCost(piece.size, write) > pdu;
            if full then
              && selected != [] && Feasible([] + [piece], pdu, write)
              && PlanShape(sizes, pdu, write, Open(Open(batches, selected), [] + [piece]))
              && WholeBatch(sizes, pdu, write, [] + [piece])
            else
              && Feasible(selected + [piece], pdu, write)
              && PlanShape(sizes, pdu, write, Open(batches, selected + [piece]))
              && WholeBatch(sizes, pdu, write, selected + [piece])
    ensures RequestSum(selected + [piece], write) == RequestSum(selected, write) + RequestCost(piece.size, write)
    ensures ResponseSum(selected + [piece], write) == ResponseSum(selected, write) + ResponseCost(piece.size, write)
    ensures RequestSum([] + [piece], write) == RequestCost(piece.size, write)
    ensures ResponseSum([] + [piece], write) == ResponseCost(piece.size, write)
  {
    assert [] + [piece] == [piece];
    AloneFeasible(piece, pdu, write);
    FeasibleStep(selected, piece, pdu, write);
    if selected == [] {
      assert RequestSum(selected, write) == 0 && ResponseSum(selected, write) == 0;
    }
    hide Feasible, PlanShape, ChunkLast, WholeBatch, WholeItem, Open;
    if Feasible(selected + [piece], pdu, write) {
      ExtendShape(sizes, batches, selected, piece, pdu, write);
    } else {
      OpenShape(sizes, batches, selected, piece, pdu, write);
    }
  }

  /** When every item fits alone there are no chunks, and the plan is greedy throughout. */
  lemma PlannedIsGreedy(sizes: seq<nat>, plan: seq<seq<Piece>>, pdu: nat, write: bool)
    requires AllAlone(sizes, |sizes|, pdu, write) && Planned(sizes, pdu, write, plan)
    ensures GreedyPlan(plan, pdu, write)
  {
    forall k | 0 <= k < |plan| ensures WholeBatch(sizes, pdu, write, plan[k]) {
      WholeWhenAlone(sizes, plan, k, pdu, write);
    }
    hide Feasible, WholeBatch, PiecesUpTo;
    forall k: nat | k < |plan| - 1 ensures TightAt(plan, k, pdu, write) {
      assert PairShape(sizes, pdu, write, plan, k);
    }
    forall k | 0 <= k < |plan| ensures Feasible(plan[k], pdu, write) {
      assert BatchShape(sizes, pdu, write, plan[k]);
    }
  }

  lemma WholeWhenAlone(sizes: seq<nat>, plan: seq<seq<Piece>>, k: nat, pdu: nat, write: bool)
    requires AllAlone(sizes, |sizes|, pdu, write) && k < |plan|
    requires Flatten(plan) == PiecesUpTo(sizes, |sizes|, pdu, write)
    ensures WholeBatch(sizes, pdu, write, plan[k])
  {
    hide Flatten, PiecesUpTo, AloneFits;
    AlonePieces(sizes, |sizes|, pdu, write);
    forall i | 0 <= i < |plan[k]| ensures WholeItem(sizes, pdu, write, plan[k][i]) {
      FlattenMember(plan, k, i);
    }
  }

  /** Items that all fit alone travel in one piece each. */
  lemma {:induction false} AlonePieces(sizes: seq<nat>, n: nat, pdu: nat, write: bool)
    requires n <= |sizes| && AllAlone(sizes, |sizes|, pdu, write)
    ensures |PiecesUpTo(sizes, n, pdu, write)| == n
    ensures forall i :: 0 <= i < n ==> PiecesUpTo(sizes, n, pdu, write)[i] == Piece(i, Base(|sizes|, i), 0, sizes[i])
  {
    hide AloneFits, Base;
    if n == 0 {
    } else {
      AlonePieces(sizes, n - 1, pdu, write);
      assert AloneFits(sizes[n - 1], pdu, write);
    }
  }

  lemma EmptyPlan(sizes: seq<nat>, pdu: nat, write: bool)
    ensures Flatten<Piece>([]) == [] && PiecesUpTo(sizes, 0, pdu, write) == []
    ensures Bounded([], pdu, write) && PlanShape(sizes, pdu, write, []) && ChunkLast(sizes, pdu, write, [])
    ensures WholeBatch(sizes, pdu, write, [])
    ensures RequestSum([], write) == 0 && ResponseSum([], write) == 0
    ensures AllAlone(sizes, 0, pdu, write) && Open([], []) == []
  {
  }

  lemma BoundedAppend(a: seq<seq<Piece>>, b: seq<seq<Piece>>, pdu: nat, write: bool)
    requires Bounded(a, pdu, write) && Bounded(b, pdu, write)
    ensures Bounded(a + b, pdu, write)
  {
  }
}
