/** What the planner's batches achieve: coverage, exact PDU conditions, optimality,
    and agreement with the uniform-size closed form. */
module PlannerProofs {
  import opened Bytes
  import opened Planner

  // --- coverage ---

  /** The pieces carry octets `from..to` of the item contiguously, in order, once each,
      at consecutive addresses. */
  predicate Tiles(pieces: seq<Piece>, item: nat, base: nat, from: nat, to: nat) {
    if pieces == [] then from == to
    else
      && pieces[0] == Piece(item, base + from, from, pieces[0].size)
      && Tiles(pieces[1..], item, base, from + pieces[0].size, to)
  }

  function Octet(item: nat, offset: nat): byte { (item * 29 + offset * 37 + 11) % 256 }

  function OctetsOf(item: nat, from: nat, to: nat): (s: seq<byte>)
    requires from <= to
    ensures |s| == to - from && forall i :: 0 <= i < |s| ==> s[i] == Octet(item, from + i)
  {
    seq<byte>(to - from, (i: nat) => Octet(item, from + i))
  }

  /** The octets one piece carries. */
  function PayloadOf(piece: Piece): (s: seq<byte>)
    ensures |s| == piece.size
  {
    OctetsOf(piece.item, piece.offset, piece.offset + piece.size)
  }

  function PayloadsOf(pieces: seq<Piece>): seq<byte> {
    if pieces == [] then [] else PayloadOf(pieces[0]) + PayloadsOf(pieces[1..])
  }

  /** Sending a tiling in order rebuilds the whole payload. */
  lemma {:induction false} TilesRebuild(pieces: seq<Piece>, item: nat, base: nat, from: nat, to: nat)
    requires Tiles(pieces, item, base, from, to)
    ensures from <= to && PayloadsOf(pieces) == OctetsOf(item, from, to)
    decreases |pieces|
  {
    if pieces == [] {
    } else {
      TilesRebuild(pieces[1..], item, base, from + pieces[0].size, to);
    }
  }

  lemma {:induction false} ChunksTile(item: nat, base: nat, size: nat, offset: nat, maximum: nat)
    requires maximum > 0 && offset <= size
    ensures Tiles(Chunks(item, base, size, offset, maximum), item, base, offset, size)
    decreases size - offset
  {
    if offset == size {
    } else {
      var piece := Chunk(item, base, size, offset, maximum);
      if offset + maximum < size {
        ChunksTile(item, base, size, offset + maximum, maximum);
      } else {
        assert Chunks(item, base, size, offset + maximum, maximum) == [];
      }
      assert ([piece] + Chunks(item, base, size, offset + maximum, maximum))[1..]
          == Chunks(item, base, size, offset + maximum, maximum);
    }
  }

  /** The chunks of one item, piece by piece, fit the PDU. */
  lemma {:induction false} ChunksFit(item: nat, base: nat, size: nat, offset: nat, pdu: nat, write: bool, k: nat)
    requires pdu >= MinPdu(write) && k < |Chunks(item, base, size, offset, Maximum(pdu, write))|
    ensures OnTheWire([Chunks(item, base, size, offset, Maximum(pdu, write))[k]], pdu, write)
    decreases k
  {
    var maximum := Maximum(pdu, write);
    if k == 0 {
      OneOnTheWire(Chunk(item, base, size, offset, maximum), write);
    } else {
      ChunksFit(item, base, size, offset + maximum, pdu, write, k - 1);
    }
  }

  /** An item is delivered when its pieces rebuild it and each can travel. */
  predicate Delivers(sizes: seq<nat>, item: nat, pdu: nat, write: bool)
    requires item < |sizes|
  {
    var pieces := ItemPieces(sizes, item, pdu, write);
    && Tiles(pieces, item, Base(|sizes|, item), 0, sizes[item])
    && forall k :: 0 <= k < |pieces| ==> OnTheWire([pieces[k]], pdu, write)
  }

  /** From `MinPdu` on, every item of every list is delivered. */
  lemma EveryItemDelivered(sizes: seq<nat>, item: nat, pdu: nat, write: bool)
    requires item < |sizes| && pdu >= MinPdu(write)
    ensures Delivers(sizes, item, pdu, write)
    ensures PayloadsOf(ItemPieces(sizes, item, pdu, write)) == OctetsOf(item, 0, sizes[item])
  {
    var pieces, base := ItemPieces(sizes, item, pdu, write), Base(|sizes|, item);
    if AloneFits(sizes[item], pdu, write) {
      OneOnTheWire(pieces[0], write);
      assert pieces[1..] == [];
    } else {
      ChunksTile(item, base, sizes[item], 0, Maximum(pdu, write));
      forall k | 0 <= k < |pieces| ensures OnTheWire([pieces[k]], pdu, write) {
        ChunksFit(item, base, sizes[item], 0, pdu, write, k);
      }
    }
    TilesRebuild(pieces, item, base, 0, sizes[item]);
  }

  /** `MinPdu` is exact: below it a single one-octet item is lost, refused, or sent in
      a request longer than the PDU. */
  lemma MinPduIsExact(pdu: nat, write: bool)
    ensures pdu >= MinPdu(write) <==>
            forall sizes: seq<nat>, item: nat | item < |sizes| :: Delivers(sizes, item, pdu, write)
  {
    if pdu >= MinPdu(write) {
      forall sizes: seq<nat>, item: nat | item < |sizes| ensures Delivers(sizes, item, pdu, write) {
        EveryItemDelivered(sizes, item, pdu, write);
      }
    } else {
      var pieces := ItemPieces([1], 0, pdu, write);
      assert !AloneFits(1, pdu, write);
      assert !Delivers([1], 0, pdu, write) by {
        if Maximum(pdu, write) > 0 {
          OneOnTheWire(pieces[0], write);
          assert !OnTheWire([pieces[0]], pdu, write);
        } else {
          assert pieces == [];
        }
      }
    }
  }

  /** Plans of consecutive items keep the items' order. */
  lemma {:induction false} PiecesInOrder(sizes: seq<nat>, n: nat, pdu: nat, write: bool, k: nat)
    requires n <= |sizes| && pdu >= MinPdu(write) && k < |PiecesUpTo(sizes, n, pdu, write)|
    ensures var pieces := PiecesUpTo(sizes, n, pdu, write);
            pieces[k].item < n && (k > 0 ==> pieces[k - 1].item <= pieces[k].item)
    decreases n
  {
    hide ItemPieces;
    var before := PiecesUpTo(sizes, n - 1, pdu, write);
    if k < |before| {
      PiecesInOrder(sizes, n - 1, pdu, write, k);
    } else {
      PiecesOfItem(sizes, n - 1, pdu, write, k - |before|);
      if k > |before| {
        PiecesOfItem(sizes, n - 1, pdu, write, k - |before| - 1);
      } else if k > 0 {
        PiecesInOrder(sizes, n - 1, pdu, write, k - 1);
      }
    }
  }

  lemma PiecesOfItem(sizes: seq<nat>, item: nat, pdu: nat, write: bool, k: nat)
    requires item < |sizes| && pdu >= MinPdu(write) && k < |ItemPieces(sizes, item, pdu, write)|
    ensures ItemPieces(sizes, item, pdu, write)[k].item == item
  {
    EveryItemDelivered(sizes, item, pdu, write);
    hide ItemPieces, Tiles, Base;
    TilesItem(ItemPieces(sizes, item, pdu, write), item, Base(|sizes|, item), 0, sizes[item], k);
  }

  lemma {:induction false} TilesItem(pieces: seq<Piece>, item: nat, base: nat, from: nat, to: nat, k: nat)
    requires Tiles(pieces, item, base, from, to) && k < |pieces|
    ensures pieces[k].item == item
    decreases k
  {
    if k == 0 {
    } else {
      TilesItem(pieces[1..], item, base, from + pieces[0].size, to, k - 1);
    }
  }

  // --- the plan is determined ---

  /** A shaped plan is the only one with its pieces: the planner's batch boundaries are
      determined, whole items and chunks alike. */
  lemma {:induction false} PlanIsUnique(
    sizes: seq<nat>, plan: seq<seq<Piece>>, other: seq<seq<Piece>>, pdu: nat, write: bool)
    requires PlanShape(sizes, pdu, write, plan) && PlanShape(sizes, pdu, write, other)
    requires Flatten(plan) == Flatten(other)
    ensures plan == other
    decreases |plan|
  {
    hide BatchShape, PairShape;
    if plan == [] || other == [] {
      ShapedIsNonempty(sizes, plan, pdu, write);
      ShapedIsNonempty(sizes, other, pdu, write);
    } else {
      FirstIsNotShorter(sizes, plan, other, pdu, write);
      FirstIsNotShorter(sizes, other, plan, pdu, write);
      assert plan[0] == Flatten(plan)[..|plan[0]|] && other[0] == Flatten(other)[..|other[0]|];
      assert Flatten(plan[1..]) == Flatten(plan)[|plan[0]|..] && Flatten(other[1..]) == Flatten(other)[|other[0]|..];
      TailShape(sizes, plan, pdu, write);
      TailShape(sizes, other, pdu, write);
      PlanIsUnique(sizes, plan[1..], other[1..], pdu, write);
      assert plan == [plan[0]] + plan[1..] && other == [other[0]] + other[1..];
    }
  }

  lemma ShapedIsNonempty(sizes: seq<nat>, plan: seq<seq<Piece>>, pdu: nat, write: bool)
    requires PlanShape(sizes, pdu, write, plan)
    ensures Flatten(plan) == [] ==> plan == []
  {
    hide WholeBatch;
    if plan != [] {
      assert BatchShape(sizes, pdu, write, plan[0]);
    }
  }

  lemma TailShape(sizes: seq<nat>, plan: seq<seq<Piece>>, pdu: nat, write: bool)
    requires PlanShape(sizes, pdu, write, plan) && plan != []
    ensures PlanShape(sizes, pdu, write, plan[1..])
  {
    hide BatchShape, WholeBatch, TightAt;
    forall k: nat | k < |plan[1..]| - 1 ensures PairShape(sizes, pdu, write, plan[1..], k) {
      assert PairShape(sizes, pdu, write, plan, k + 1);
      TightTail(plan, k, pdu, write);
    }
  }

  lemma TightTail(plan: seq<seq<Piece>>, k: nat, pdu: nat, write: bool)
    requires k + 2 < |plan|
    ensures TightAt(plan[1..], k, pdu, write) <==> TightAt(plan, k + 1, pdu, write)
  {
  }

  /** No shaped plan starts with a shorter batch: it would have taken the next item. */
  lemma FirstIsNotShorter(
    sizes: seq<nat>, plan: seq<seq<Piece>>, other: seq<seq<Piece>>, pdu: nat, write: bool)
    requires PlanShape(sizes, pdu, write, plan) && PlanShape(sizes, pdu, write, other)
    requires plan != [] && other != [] && Flatten(plan) == Flatten(other)
    ensures |plan[0]| >= |other[0]|
  {
    hide Feasible, WholeItem;
    assert BatchShape(sizes, pdu, write, plan[0]) && BatchShape(sizes, pdu, write, other[0]);
    var n := |plan[0]|;
    if n < |other[0]| {
      NonemptyBatch(sizes, plan[0], pdu, write);
      assert WholeBatch(sizes, pdu, write, other[0]) && Feasible(other[0], pdu, write);
      PrefixFeasible(other[0], n, pdu, write);
      NextPiece(sizes, plan, other, pdu, write);
      assert false;
    }
  }

  lemma PrefixFeasible(batch: seq<Piece>, n: nat, pdu: nat, write: bool)
    requires Feasible(batch, pdu, write) && n < |batch|
    ensures Feasible(batch[..n] + [batch[n]], pdu, write)
  {
    assert batch == [] + (batch[..n] + [batch[n]]) + batch[n + 1..];
    SubFeasible([], batch[..n] + [batch[n]], batch[n + 1..], pdu, write);
  }

  lemma NonemptyBatch(sizes: seq<nat>, batch: seq<Piece>, pdu: nat, write: bool)
    requires BatchShape(sizes, pdu, write, batch)
    ensures batch != []
  {
  }

  /** The second batch starts with a whole item, which the first could not have taken. */
  lemma NextPiece(sizes: seq<nat>, plan: seq<seq<Piece>>, other: seq<seq<Piece>>, pdu: nat, write: bool)
    requires PlanShape(sizes, pdu, write, plan) && plan != [] && other != [] && Flatten(plan) == Flatten(other)
    requires |plan[0]| < |other[0]| && WholeBatch(sizes, pdu, write, other[0])
    ensures !Feasible(other[0][..|plan[0]|] + [other[0][|plan[0]|]], pdu, write)
  {
    hide Feasible, WholeItem;
    var n := |plan[0]|;
    assert Flatten(plan)[..n] == plan[0] && Flatten(plan)[n..] == Flatten(plan[1..]);
    assert Flatten(other)[..|other[0]|] == other[0];
    assert Flatten(plan)[n] == other[0][n];
    assert |Flatten(other)| >= |other[0]| && |Flatten(plan)| == n + |Flatten(plan[1..])|;
    assert plan[1..] != [];
    assert BatchShape(sizes, pdu, write, plan[1]);
    NonemptyBatch(sizes, plan[1], pdu, write);
    assert Flatten(plan[1..])[0] == plan[1][0];
    assert plan[1][0] == other[0][n] && plan[0] == other[0][..n];
    assert WholeItem(sizes, pdu, write, other[0][n]);
    assert WholeBatch(sizes, pdu, write, plan[0]) && WholeBatch(sizes, pdu, write, plan[1]);
    assert PairShape(sizes, pdu, write, plan, 0);
  }

  // --- optimality ---

  predicate Partition(batches: seq<seq<Piece>>, pdu: nat, write: bool) {
    forall k :: 0 <= k < |batches| ==> Feasible(batches[k], pdu, write)
  }

  /** A greedy plan of a suffix needs no more batches than any partition of the whole. */
  lemma {:induction false} GreedySuffix(
    plan: seq<seq<Piece>>, other: seq<seq<Piece>>, skipped: seq<Piece>, pdu: nat, write: bool)
    requires GreedyPlan(plan, pdu, write) && Partition(other, pdu, write)
    requires skipped + Flatten(plan) == Flatten(other)
    ensures |plan| <= |other|
    decreases |other|
  {
    if plan == [] {
    } else {
      hide Feasible;
      FirstNonempty(plan, pdu, write);
      var q, rest := other[0], other[1..];
      assert Flatten(other) == q + Flatten(rest);
      if |skipped| >= |q| {
        SplitConcat(skipped, Flatten(plan), q, Flatten(rest));
        GreedySuffix(plan, rest, skipped[|q|..], pdu, write);
      } else {
        GreedyReaches(plan, q, Flatten(rest), skipped, pdu, write);
        var later := plan[1..];
        TailGreedy(plan, pdu, write);
        assert skipped + plan[0] + Flatten(later) == q + Flatten(rest);
        SplitConcat(skipped + plan[0], Flatten(later), q, Flatten(rest));
        GreedySuffix(later, rest, (skipped + plan[0])[|q|..], pdu, write);
      }
    }
  }

  lemma FirstNonempty(plan: seq<seq<Piece>>, pdu: nat, write: bool)
    requires GreedyPlan(plan, pdu, write) && plan != []
    ensures plan[0] != [] && Flatten(plan) == plan[0] + Flatten(plan[1..]) && Flatten(plan) != []
  {
    assert Feasible(plan[0], pdu, write);
  }

  lemma SplitConcat<T>(a: seq<T>, b: seq<T>, c: seq<T>, d: seq<T>)
    requires a + b == c + d && |c| <= |a|
    ensures a == c + a[|c|..] && a[|c|..] + b == d
  {
    assert a == (a + b)[..|a|] && c == (c + d)[..|c|];
    assert (a + b)[|c|..] == a[|c|..] + b;
    assert (c + d)[|c|..] == d;
  }

  /** A greedy batch that starts inside a feasible batch ends no earlier than it. */
  lemma GreedyReaches(
    plan: seq<seq<Piece>>, q: seq<Piece>, after: seq<Piece>, skipped: seq<Piece>, pdu: nat, write: bool)
    requires GreedyPlan(plan, pdu, write) && plan != [] && Feasible(q, pdu, write)
    requires skipped + Flatten(plan) == q + after && |skipped| < |q|
    ensures |skipped| + |plan[0]| >= |q|
  {
    FirstNonempty(plan, pdu, write);
    var b := plan[0];
    var whole := skipped + Flatten(plan);
    if |plan| == 1 {
      assert Flatten(plan[1..]) == [];
    }
    if |skipped| + |b| < |q| {
      if |plan| > 1 {
        FirstNonemptyNext(plan, pdu, write);
        assert TightAt(plan, 0, pdu, write);
        var grown := b + [plan[1][0]];
        var tail := q[|skipped| + |grown|..];
        assert whole == skipped + grown + Flatten(plan)[|grown|..];
        assert q == whole[..|q|];
        assert q == skipped + grown + tail;
        SubFeasible(skipped, grown, tail, pdu, write);
      }
    }
  }

  lemma FirstNonemptyNext(plan: seq<seq<Piece>>, pdu: nat, write: bool)
    requires GreedyPlan(plan, pdu, write) && |plan| > 1
    ensures plan[1] != [] && |Flatten(plan)| > |plan[0]|
    ensures Flatten(plan)[..|plan[0]| + 1] == plan[0] + [plan[1][0]]
  {
    assert Feasible(plan[1], pdu, write);
    assert plan[1..][0] == plan[1];
    assert Flatten(plan) == plan[0] + (plan[1] + Flatten(plan[1..][1..]));
  }

  /** No order-preserving partition of the same pieces under the item limit and both
      budgets uses fewer batches than the greedy plan. */
  lemma GreedyIsOptimal(plan: seq<seq<Piece>>, other: seq<seq<Piece>>, pdu: nat, write: bool)
    requires GreedyPlan(plan, pdu, write) && Partition(other, pdu, write) && Flatten(plan) == Flatten(other)
    ensures |plan| <= |other|
  {
    assert [] + Flatten(plan) == Flatten(other);
    GreedySuffix(plan, other, [], pdu, write);
  }

  /** No order-preserving batching of the items within the planner's budgets uses fewer
      batches than the planner. */
  lemma PlannerIsOptimal(sizes: seq<nat>, plan: seq<seq<Piece>>, other: seq<seq<Piece>>, pdu: nat, write: bool)
    requires AllAlone(sizes, |sizes|, pdu, write) && Planned(sizes, pdu, write, plan)
    requires Partition(other, pdu, write) && Flatten(other) == Flatten(plan)
    ensures |plan| <= |other|
  {
    PlannedIsGreedy(sizes, plan, pdu, write);
    GreedyIsOptimal(plan, other, pdu, write);
  }

  // --- optimality against the octets actually sent ---

  predicate WirePartition(batches: seq<seq<Piece>>, pdu: nat, write: bool) {
    forall k :: 0 <= k < |batches| ==> OnTheWire(batches[k], pdu, write)
  }

  /** The shortest PDU that carries two items of at least `least` octets each way. */
  function TwoItems(least: nat, write: bool): nat {
    var records := 8 + least + least % 2 + least;
    if write then 36 + records else if 14 + records > 36 then 14 + records else 36
  }

  /** Holds when reserving padding for the last record never costs a batch. */
  predicate ReserveIsFree(pdu: nat, write: bool, least: nat) {
    pdu % 2 == 0 || pdu < TwoItems(least, write)
  }

  lemma EvenPduReserve(batch: seq<Piece>, pdu: nat, write: bool)
    requires OnTheWire(batch, pdu, write) && pdu % 2 == 0
    ensures Feasible(batch, pdu, write)
  {
    ReserveIsPadding(batch, write);
    SumsEven(batch, write);
  }

  predicate AtLeast(batch: seq<Piece>, least: nat) {
    forall i :: 0 <= i < |batch| ==> batch[i].size >= least
  }

  lemma TwoPiecesAreLong(batch: seq<Piece>, least: nat, pdu: nat, write: bool)
    requires |batch| > 1 && AtLeast(batch, least) && OnTheWire(batch, pdu, write)
    ensures pdu >= TwoItems(least, write)
  {
    var a, b := batch[0].size, batch[1].size;
    assert DataSize(batch) == 4 + a + a % 2 + DataSize(batch[1..]);
    assert DataSize(batch[1..]) >= 4 + b;
    assert a + a % 2 >= least + least % 2 && b >= least;
  }

  lemma {:induction false} SingletonsAreMost(other: seq<seq<Piece>>)
    requires forall k :: 0 <= k < |other| ==> |other[k]| == 1
    ensures |Flatten(other)| == |other|
  {
    if other == [] {
    } else {
      SingletonsAreMost(other[1..]);
    }
  }

  lemma {:induction false} BatchesAtMostPieces(plan: seq<seq<Piece>>, pdu: nat, write: bool)
    requires Partition(plan, pdu, write)
    ensures |plan| <= |Flatten(plan)|
  {
    if plan == [] {
    } else {
      assert Feasible(plan[0], pdu, write);
      BatchesAtMostPieces(plan[1..], pdu, write);
    }
  }

  /** A plan of whole items of at least `least` octets, and another batching of the same
      pieces that fits the octets actually sent. */
  predicate WireRivals(
    sizes: seq<nat>, least: nat, pdu: nat, write: bool, plan: seq<seq<Piece>>, other: seq<seq<Piece>>)
  {
    && (forall i :: 0 <= i < |sizes| ==> sizes[i] >= least) && AllAlone(sizes, |sizes|, pdu, write)
    && Planned(sizes, pdu, write, plan)
    && WirePartition(other, pdu, write) && Flatten(other) == Flatten(plan)
  }

  /** For every item list the planner's plan beats every batching that fits the octets
      actually sent. */
  ghost predicate WireOptimal(pdu: nat, write: bool, least: nat) {
    forall sizes, plan, other :: WireRivals(sizes, least, pdu, write, plan, other) ==> |plan| <= |other|
  }

  lemma PiecesAtLeast(
    sizes: seq<nat>, least: nat, plan: seq<seq<Piece>>, other: seq<seq<Piece>>, k: nat, pdu: nat, write: bool)
    requires WireRivals(sizes, least, pdu, write, plan, other) && k < |other|
    ensures AtLeast(other[k], least)
  {
    AlonePieces(sizes, |sizes|, pdu, write);
    hide Flatten, PlanShape, AllAlone, PiecesUpTo, OnTheWire;
    forall i | 0 <= i < |other[k]| ensures other[k][i].size >= least {
      FlattenMember(other, k, i);
    }
  }

  lemma FreeReserveIsOptimal(
    sizes: seq<nat>, least: nat, plan: seq<seq<Piece>>, other: seq<seq<Piece>>, pdu: nat, write: bool)
    requires ReserveIsFree(pdu, write, least) && WireRivals(sizes, least, pdu, write, plan, other)
    ensures |plan| <= |other|
  {
    hide Flatten, PlanShape, GreedyPlan, AllAlone, PiecesUpTo, AtLeast, OnTheWire, Feasible, TwoItems;
    PlannedIsGreedy(sizes, plan, pdu, write);
    if pdu % 2 == 0 {
      forall k | 0 <= k < |other| ensures Feasible(other[k], pdu, write) {
        EvenPduReserve(other[k], pdu, write);
      }
      GreedyIsOptimal(plan, other, pdu, write);
    } else {
      forall k | 0 <= k < |other| ensures |other[k]| == 1 {
        PiecesAtLeast(sizes, least, plan, other, k, pdu, write);
        OneOrTwo(other[k], least, pdu, write);
      }
      SingletonsAreMost(other);
      GreedyIsPartition(plan, pdu, write);
      BatchesAtMostPieces(plan, pdu, write);
    }
  }

  lemma OneOrTwo(batch: seq<Piece>, least: nat, pdu: nat, write: bool)
    requires AtLeast(batch, least) && OnTheWire(batch, pdu, write) && pdu < TwoItems(least, write)
    ensures |batch| == 1
  {
    hide TwoItems, AtLeast;
    if |batch| > 1 {
      TwoPiecesAreLong(batch, least, pdu, write);
    }
  }

  lemma GreedyIsPartition(plan: seq<seq<Piece>>, pdu: nat, write: bool)
    requires GreedyPlan(plan, pdu, write)
    ensures Partition(plan, pdu, write)
  {
    hide Feasible;
  }

  /** The two item sizes on which any other PDU wastes a batch: the smallest item, and one
      whose record ends the PDU on an odd octet. */
  function WastefulSizes(pdu: nat, write: bool, least: nat): (sizes: seq<nat>)
    requires !ReserveIsFree(pdu, write, least)
    ensures |sizes| == 2 && sizes[0] == least && sizes[1] >= least && sizes[1] % 2 == 1
  {
    [least, pdu - (if write then 44 else 22) - least - least % 2]
  }

  /** Both items in one batch. */
  function WastefulBatch(pdu: nat, write: bool, least: nat): seq<Piece>
    requires !ReserveIsFree(pdu, write, least)
  {
    var sizes := WastefulSizes(pdu, write, least);
    [Piece(0, 0, 0, sizes[0]), Piece(1, 0, 0, sizes[1])]
  }

  lemma WastefulPieces(sizes: seq<nat>, pdu: nat, write: bool)
    requires |sizes| == 2 && AloneFits(sizes[0], pdu, write) && AloneFits(sizes[1], pdu, write)
    ensures AllAlone(sizes, 2, pdu, write)
    ensures PiecesUpTo(sizes, 2, pdu, write) == [Piece(0, 0, 0, sizes[0]), Piece(1, 0, 0, sizes[1])]
  {
    hide AloneFits;
    AlonePieces(sizes, 2, pdu, write);
  }

  lemma PairSizes(a: Piece, b: Piece, write: bool)
    ensures DataSize([a, b]) == 8 + a.size + a.size % 2 + b.size
    ensures RequestSum([a] + [b], write) == RequestCost(a.size, write) + RequestCost(b.size, write)
    ensures ResponseSum([a] + [b], write) == ResponseCost(a.size, write) + ResponseCost(b.size, write)
  {
    SumsAppend([a], [b], write);
    SumsOne(a, write);
    SumsOne(b, write);
    assert [a, b][1..] == [b];
    assert DataSize([b]) == 4 + b.size;
  }

  lemma FlattenPair(a: Piece, b: Piece)
    ensures Flatten([[a], [b]]) == [a, b] && Flatten([[a, b]]) == [a, b]
  {
    assert [[a], [b]][1..] == [[b]] && [[b]][1..] == [] && [[a, b]][1..] == [];
    assert Flatten([[b]]) == [b] + Flatten<Piece>([]);
    assert Flatten([[a, b]]) == [a, b] + Flatten<Piece>([]);
  }

  /** For every other PDU the planner splits a list that one batch would carry. */
  lemma OddPduWastes(pdu: nat, write: bool, least: nat) returns (plan: seq<seq<Piece>>, other: seq<seq<Piece>>)
    requires !ReserveIsFree(pdu, write, least)
    ensures WireRivals(WastefulSizes(pdu, write, least), least, pdu, write, plan, other)
    ensures |plan| == 2 && other == [WastefulBatch(pdu, write, least)]
  {
    var sizes := WastefulSizes(pdu, write, least);
    var a, b := Piece(0, 0, 0, sizes[0]), Piece(1, 0, 0, sizes[1]);
    plan, other := [[a], [b]], [[a, b]];
    PairSizes(a, b, write);
    FlattenPair(a, b);
    AloneFeasible(a, pdu, write);
    AloneFeasible(b, pdu, write);
    WastefulPieces(sizes, pdu, write);
    hide Flatten, PiecesUpTo, RequestSum, ResponseSum, DataSize;
    assert OnTheWire([a, b], pdu, write);
    assert !Feasible([a] + [b], pdu, write);
    assert TightAt(plan, 0, pdu, write);
    assert BatchShape(sizes, pdu, write, plan[0]) && BatchShape(sizes, pdu, write, plan[1]);
  }

  /** Against the octets actually sent, the conservative planner is optimal exactly for
      even PDUs and for those too short for two items. */
  lemma WireOptimalExactly(pdu: nat, write: bool, least: nat)
    ensures WireOptimal(pdu, write, least) <==> ReserveIsFree(pdu, write, least)
  {
    hide WireRivals;
    if ReserveIsFree(pdu, write, least) {
      forall sizes, plan, other | WireRivals(sizes, least, pdu, write, plan, other)
        ensures |plan| <= |other|
      {
        FreeReserveIsOptimal(sizes, least, plan, other, pdu, write);
      }
    } else {
      var plan, other := OddPduWastes(pdu, write, least);
    }
  }

  // --- the uniform closed form ---

  function Least(a: int, b: int): int { if a < b then a else b }

  function Quotient(a: nat, b: nat): nat
    requires b > 0
  {
    a / b
  }

  /** How many of `remaining` equal items the multi-batching peer expects in one request. */
  function ExpectedCount(remaining: nat, size: nat, pdu: nat, write: bool): int
    requires pdu >= 14
  {
    var expected := Least(20, remaining);
    if write then Least(expected, Quotient(pdu - 12, 16 + size + size % 2))
    else Least(Least(expected, Quotient(pdu - 12, 12)), Quotient(pdu - 14, 4 + size + size % 2))
  }

  function ExpectedCounts(remaining: nat, size: nat, pdu: nat, write: bool): seq<nat>
    requires pdu >= 14
  {
    var count := ExpectedCount(remaining, size, pdu, write);
    if remaining == 0 || count <= 0 then [] else [count] + ExpectedCounts(remaining - count, size, pdu, write)
  }

  function Lengths(plan: seq<seq<Piece>>): (s: seq<nat>)
    ensures |s| == |plan| && forall i :: 0 <= i < |s| ==> s[i] == |plan[i]|
  {
    seq(|plan|, i requires 0 <= i < |plan| => |plan[i]|)
  }

  predicate Uniform(batch: seq<Piece>, size: nat) {
    forall i :: 0 <= i < |batch| ==> batch[i].size == size
  }

  lemma {:induction false} UniformSums(batch: seq<Piece>, size: nat, write: bool)
    requires Uniform(batch, size)
    ensures RequestSum(batch, write) == Product(|batch|, RequestCost(size, write))
    ensures ResponseSum(batch, write) == Product(|batch|, ResponseCost(size, write))
  {
    if batch == [] {
    } else {
      UniformSums(batch[1..], size, write);
    }
  }

  lemma QuotientBound(k: nat, a: nat, b: nat)
    requires b > 0
    ensures k <= Quotient(a, b) <==> Product(k, b) <= a
  {
    var q := a / b;
    assert a == q * b + a % b;
    if k <= q {
      ProductMonotone(k, q, b);
    } else {
      ProductMonotone(q + 1, k, b);
      assert (q + 1) * b == q * b + b;
    }
  }

  lemma ProductMonotone(a: nat, b: nat, c: nat)
    requires a <= b
    ensures Product(a, c) <= Product(b, c)
  {
    assert b * c == a * c + (b - a) * c;
  }

  lemma ProductAtLeast(k: nat, c: nat)
    requires c >= 16
    ensures 16 * k <= Product(k, c) && Product(k, 1) == k
  {
    assert k * c == 16 * k + k * (c - 16);
  }

  /** Feasibility of equal items is a comparison with the closed form. */
  lemma UniformFeasible(batch: seq<Piece>, size: nat, remaining: nat, pdu: nat, write: bool)
    requires Uniform(batch, size) && 1 <= |batch| <= remaining && pdu >= 14
    ensures Feasible(batch, pdu, write) <==> |batch| <= ExpectedCount(remaining, size, pdu, write)
  {
    hide RequestSum, ResponseSum, Uniform, Product, Quotient;
    UniformSums(batch, size, write);
    if write {
      QuotientBound(|batch|, pdu - 12, RequestCost(size, true));
      ProductAtLeast(|batch|, RequestCost(size, true));
    } else {
      QuotientBound(|batch|, pdu - 12, 12);
      QuotientBound(|batch|, pdu - 14, ResponseCost(size, false));
    }
  }

  /** On equal items that fit alone, the incremental planner cuts exactly where the
      multi-batching peer's closed form does. */
  lemma {:induction false} UniformPlanMatchesClosedForm(plan: seq<seq<Piece>>, size: nat, pdu: nat, write: bool)
    requires GreedyPlan(plan, pdu, write) && Uniform(Flatten(plan), size) && AloneFits(size, pdu, write)
    ensures Lengths(plan) == ExpectedCounts(|Flatten(plan)|, size, pdu, write)
    decreases |plan|
  {
    if plan == [] {
    } else {
      FirstNonempty(plan, pdu, write);
      var b, later, n := plan[0], plan[1..], |Flatten(plan)|;
      FirstIsExpected(plan, size, pdu, write);
      TailGreedy(plan, pdu, write);
      assert Uniform(Flatten(later), size) by {
        assert forall i :: 0 <= i < |Flatten(later)| ==> Flatten(later)[i] == Flatten(plan)[|b| + i];
      }
      UniformPlanMatchesClosedForm(later, size, pdu, write);
      assert Lengths(plan) == [|b|] + Lengths(later);
    }
  }

  lemma TailGreedy(plan: seq<seq<Piece>>, pdu: nat, write: bool)
    requires GreedyPlan(plan, pdu, write) && plan != []
    ensures GreedyPlan(plan[1..], pdu, write)
  {
    hide Feasible;
    var later := plan[1..];
    forall k: nat | k < |later| - 1 ensures TightAt(later, k, pdu, write) {
      assert TightAt(plan, k + 1, pdu, write);
    }
  }

  lemma FirstIsExpected(plan: seq<seq<Piece>>, size: nat, pdu: nat, write: bool)
    requires GreedyPlan(plan, pdu, write) && plan != [] && Uniform(Flatten(plan), size) && AloneFits(size, pdu, write)
    ensures |plan[0]| == ExpectedCount(|Flatten(plan)|, size, pdu, write)
  {
    FirstNonempty(plan, pdu, write);
    var b, n := plan[0], |Flatten(plan)|;
    assert forall i :: 0 <= i < |b| ==> b[i] == Flatten(plan)[i];
    UniformFeasible(b, size, n, pdu, write);
    if |plan| > 1 {
      FirstNonemptyNext(plan, pdu, write);
      assert TightAt(plan, 0, pdu, write);
      var grown := b + [plan[1][0]];
      assert grown == Flatten(plan)[..|grown|];
      UniformFeasible(grown, size, n, pdu, write);
    } else {
      assert Flatten(plan[1..]) == [];
    }
  }

  /** For a list of equal items that fit alone, the planner's batch sizes are those of the
      multi-batching peer's closed form. */
  lemma UniformItemsMatchClosedForm(sizes: seq<nat>, size: nat, plan: seq<seq<Piece>>, pdu: nat, write: bool)
    requires (forall i :: 0 <= i < |sizes| ==> sizes[i] == size) && AloneFits(size, pdu, write)
    requires Planned(sizes, pdu, write, plan)
    ensures Lengths(plan) == ExpectedCounts(|sizes|, size, pdu, write)
  {
    AlonePieces(sizes, |sizes|, pdu, write);
    PlannedIsGreedy(sizes, plan, pdu, write);
    hide GreedyPlan, PlanShape, AloneFits, PiecesUpTo, Lengths, ExpectedCounts;
    UniformPlanMatchesClosedForm(plan, size, pdu, write);
  }
}
