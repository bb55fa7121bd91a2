/** Block directory replies: seven counts, one per block type in any order, and lists of
    four-octet block entries. */
module Blocks {
  import opened Bytes

  datatype BlockType =
    | OrganizationBlock | DataBlock | SystemDataBlock | Function
    | SystemFunction | FunctionBlock | SystemFunctionBlock

  function Code(t: BlockType): byte {
    match t
    case OrganizationBlock => 0x38
    case DataBlock => 0x41
    case SystemDataBlock => 0x42
    case Function => 0x43
    case SystemFunction => 0x44
    case FunctionBlock => 0x45
    case SystemFunctionBlock => 0x46
  }

  /** Undoes `Code`, and refuses every other octet. */
  function OfCode(code: byte): (t: Option<BlockType>)
    ensures t.Some? ==> Code(t.value) == code
    ensures t.None? ==> forall u: BlockType :: Code(u) != code
  {
    if code == 0x38 then Some(OrganizationBlock)
    else if code == 0x41 then Some(DataBlock)
    else if code == 0x42 then Some(SystemDataBlock)
    else if code == 0x43 then Some(Function)
    else if code == 0x44 then Some(SystemFunction)
    else if code == 0x45 then Some(FunctionBlock)
    else if code == 0x46 then Some(SystemFunctionBlock)
    else None
  }

  datatype BlockCounts = BlockCounts(
    organizationBlocks: u16, dataBlocks: u16, systemDataBlocks: u16, functions: u16,
    systemFunctions: u16, functionBlocks: u16, systemFunctionBlocks: u16)

  const NO_BLOCKS: BlockCounts := BlockCounts.BlockCounts(0, 0, 0, 0, 0, 0, 0)

  function Get(c: BlockCounts, t: BlockType): u16 {
    match t
    case OrganizationBlock => c.organizationBlocks
    case DataBlock => c.dataBlocks
    case SystemDataBlock => c.systemDataBlocks
    case Function => c.functions
    case SystemFunction => c.systemFunctions
    case FunctionBlock => c.functionBlocks
    case SystemFunctionBlock => c.systemFunctionBlocks
  }

  function Put(c: BlockCounts, t: BlockType, count: u16): (d: BlockCounts)
    ensures forall u: BlockType :: Get(d, u) == if u == t then count else Get(c, u)
  {
    match t
    case OrganizationBlock => c.(organizationBlocks := count)
    case DataBlock => c.(dataBlocks := count)
    case SystemDataBlock => c.(systemDataBlocks := count)
    case Function => c.(functions := count)
    case SystemFunction => c.(systemFunctions := count)
    case FunctionBlock => c.(functionBlocks := count)
    case SystemFunctionBlock => c.(systemFunctionBlocks := count)
  }

  /** What is wrong with a payload, at which offset. */
  datatype Fault = BadSize(size: nat) | BadPrefix(at: nat) | UnknownType(at: nat) | DuplicateType(at: nat)

  datatype Result<T> = Ok(value: T) | Err(fault: Fault)

  /** A count record: prefix, type code, big-endian count. */
  datatype CountRecord = CountRecord(marker: byte, code: byte, count: u16)

  function RecordAt(payload: seq<byte>, i: nat): CountRecord
    requires 4 * i + 4 <= |payload|
  {
    CountRecord(payload[4 * i], payload[4 * i + 1], Be16(payload, 4 * i + 2))
  }

  function RecordsOf(payload: seq<byte>): (records: seq<CountRecord>)
    ensures |records| == |payload| / 4 && forall i :: 0 <= i < |records| ==> records[i] == RecordAt(payload, i)
  {
    seq(|payload| / 4, i requires 0 <= i < |payload| / 4 => RecordAt(payload, i))
  }

  /** A record the decoder takes after those before it. */
  predicate Takes(records: seq<CountRecord>, i: nat)
    requires i < |records|
  {
    && records[i].marker == 0x30 && OfCode(records[i].code).Some?
    && forall j :: 0 <= j < i ==> records[j].code != records[i].code
  }

  /** Record `i` is the first that is not taken. */
  predicate FailsAt(records: seq<CountRecord>, i: nat)
    requires i < |records|
  {
    !Takes(records, i) && forall j :: 0 <= j < i ==> Takes(records, j)
  }

  function FaultAt(records: seq<CountRecord>, i: nat): Fault
    requires i < |records|
  {
    if records[i].marker != 0x30 then BadPrefix(4 * i)
    else if OfCode(records[i].code).None? then UnknownType(4 * i + 1)
    else DuplicateType(4 * i + 1)
  }

  /** Each taken record sets the count of its type. */
  predicate Counted(records: seq<CountRecord>, n: nat, c: BlockCounts)
    requires n <= |records|
  {
    forall i :: 0 <= i < n ==>
      OfCode(records[i].code).Some? && Get(c, OfCode(records[i].code).value) == records[i].count
  }

  /** Every record is taken, and counted in `c`. */
  predicate Accepts(records: seq<CountRecord>, c: BlockCounts) {
    (forall i :: 0 <= i < |records| ==> Takes(records, i)) && Counted(records, |records|, c)
  }

  /** The directory of which the records are a permutation, or the first fault. */
  predicate DecodesTo(records: seq<CountRecord>, r: Result<BlockCounts>) {
    match r
    case Ok(c) => Accepts(records, c) && multiset(records) == multiset(DirectoryOf(c))
    case Err(fault) => exists i :: 0 <= i < |records| && FailsAt(records, i) && fault == FaultAt(records, i)
  }

  /** Fails at the first record it cannot take; otherwise counts all seven. */
  method DecodeBlockCounts(payload: seq<byte>) returns (r: Result<BlockCounts>)
    ensures |payload| != 28 ==> r == Err(BadSize(|payload|))
    ensures |payload| == 28 ==> DecodesTo(RecordsOf(payload), r)
  {
    if |payload| != 28 {
      return Err(BadSize(|payload|));
    }
    ghost var records := RecordsOf(payload);
    var offset: nat, result, seen: seq<byte> := 0, NO_BLOCKS, [];
    for n := 0 to 7
      invariant offset == 4 * n && |seen| == n
      invariant forall i :: 0 <= i < n ==> seen[i] == records[i].code
      invariant forall i :: 0 <= i < n ==> Takes(records, i)
      invariant Counted(records, n, result)
    {
      assert records[n] == RecordAt(payload, n);
      var marker := payload[offset];
      offset := offset + 1;
      if marker != 0x30 {
        assert FailsAt(records, n);
        return Err(BadPrefix(offset - 1));
      }
      var code := payload[offset];
      offset := offset + 1;
      var count := Be16(payload, offset);
      offset := offset + 2;
      var blockType := OfCode(code);
      if blockType.None? {
        assert FailsAt(records, n);
        return Err(UnknownType(offset - 3));
      }
      if code in seen {
        assert FailsAt(records, n);
        return Err(DuplicateType(offset - 3));
      }
      seen := seen + [code];
      result := Put(result, blockType.value, count);
    }
    TakenArePermutation(records, result);
    return Ok(result);
  }

  const TYPES: seq<BlockType> := [
    OrganizationBlock, DataBlock, SystemDataBlock, Function, SystemFunction, FunctionBlock, SystemFunctionBlock]

  /** The seven records of a directory, one per type. */
  function DirectoryOf(c: BlockCounts): (records: seq<CountRecord>)
    ensures |records| == 7
    ensures forall i :: 0 <= i < 7 ==> records[i] == CountRecord(0x30, Code(TYPES[i]), Get(c, TYPES[i]))
  {
    seq(7, i requires 0 <= i < 7 => CountRecord(0x30, Code(TYPES[i]), Get(c, TYPES[i])))
  }

  predicate Distinct<T(==)>(s: seq<T>) {
    forall i, j :: 0 <= i < j < |s| ==> s[i] != s[j]
  }

  lemma {:induction false} DistinctMultiplicity<T>(s: seq<T>, x: T)
    ensures Distinct(s) ==> multiset(s)[x] <= 1
  {
    if s == [] {
    } else {
      var front := s[..|s| - 1];
      assert s == front + [s[|s| - 1]];
      DistinctMultiplicity(front, x);
      if Distinct(s) && x == s[|s| - 1] {
        assert x !in front;
      }
    }
  }

  lemma {:induction false} DistinctCardinality<T>(s: seq<T>)
    requires Distinct(s)
    ensures |(set x | x in s)| == |s|
  {
    if s == [] {
    } else {
      var front, last := s[..|s| - 1], s[|s| - 1];
      DistinctCardinality(front);
      assert last !in front;
      assert (set x | x in s) == (set x | x in front) + {last};
    }
  }

  /** Pigeonhole: distinct elements drawn from as many are all of them. */
  lemma SamePermutation<T>(a: seq<T>, b: seq<T>)
    requires Distinct(a) && Distinct(b) && |a| == |b| && forall i :: 0 <= i < |a| ==> a[i] in b
    ensures multiset(a) == multiset(b)
  {
    var A, B := (set x | x in a), (set x | x in b);
    DistinctCardinality(a);
    DistinctCardinality(b);
    assert A <= B;
    SubsetOfSameSize(A, B);
    forall x: T ensures multiset(a)[x] == multiset(b)[x] {
      DistinctMultiplicity(a, x);
      DistinctMultiplicity(b, x);
      assert x in a <==> x in A;
      assert x in b <==> x in B;
    }
  }

  lemma SubsetOfSameSize<T>(a: set<T>, b: set<T>)
    requires a <= b && |a| == |b|
    ensures a == b
  {
    assert b == a + (b - a);
  }

  /** The accepted payloads are exactly the permutations of the seven records of a
      directory, and what is decoded is that directory. */
  lemma BlockCountsExact(payload: seq<byte>, c: BlockCounts)
    requires |payload| == 28
    ensures var records := RecordsOf(payload);
            Accepts(records, c) <==> multiset(records) == multiset(DirectoryOf(c))
  {
    var records, directory := RecordsOf(payload), DirectoryOf(c);
    if Accepts(records, c) {
      TakenArePermutation(records, c);
    }
    if multiset(records) == multiset(directory) {
      PermutationsAreTaken(records, c);
    }
  }

  lemma TakenArePermutation(records: seq<CountRecord>, c: BlockCounts)
    requires |records| == 7 && Accepts(records, c)
    ensures multiset(records) == multiset(DirectoryOf(c))
  {
    var directory := DirectoryOf(c);
    forall i | 0 <= i < 7 ensures records[i] in directory {
      assert Takes(records, i);
      IndexOf(OfCode(records[i].code).value, c);
    }
    DirectoryIsDistinct(c);
    assert Distinct(records) by {
      forall i, j | 0 <= i < j < 7 ensures records[i] != records[j] {
        assert Takes(records, j);
      }
    }
    SamePermutation(records, directory);
  }

  lemma IndexOf(t: BlockType, c: BlockCounts)
    ensures CountRecord(0x30, Code(t), Get(c, t)) in DirectoryOf(c)
  {
    var i := match t
      case OrganizationBlock => 0 case DataBlock => 1 case SystemDataBlock => 2 case Function => 3
      case SystemFunction => 4 case FunctionBlock => 5 case SystemFunctionBlock => 6;
    assert TYPES[i] == t;
    assert DirectoryOf(c)[i] == CountRecord(0x30, Code(t), Get(c, t));
  }

  lemma DirectoryIsDistinct(c: BlockCounts)
    ensures Distinct(DirectoryOf(c))
    ensures forall i, j :: 0 <= i < 7 && 0 <= j < 7 && DirectoryOf(c)[i].code == DirectoryOf(c)[j].code ==> i == j
  {
    forall i, j | 0 <= i < j < 7 ensures Code(TYPES[i]) != Code(TYPES[j]) {
    }
  }

  lemma PermutationsAreTaken(records: seq<CountRecord>, c: BlockCounts)
    requires |records| == 7 && multiset(records) == multiset(DirectoryOf(c))
    ensures Accepts(records, c)
  {
    var directory := DirectoryOf(c);
    DirectoryIsDistinct(c);
    forall i | 0 <= i < 7
      ensures records[i] in directory
    {
      assert records[i] in multiset(records);
    }
    forall i, j | 0 <= i < j < 7
      ensures records[i].code != records[j].code
    {
      if records[i].code == records[j].code {
        var k :| 0 <= k < 7 && directory[k] == records[i];
        var l :| 0 <= l < 7 && directory[l] == records[j];
        TwiceInMultiset(records, i, j);
        DistinctMultiplicity(directory, records[i]);
      }
    }
  }

  lemma TwiceInMultiset<T>(s: seq<T>, i: nat, j: nat)
    requires i < j < |s| && s[i] == s[j]
    ensures multiset(s)[s[i]] >= 2
  {
    assert s == s[..j] + s[j..];
    assert s[i] in s[..j] && s[i] in s[j..];
  }

  /** Reordering the records of a payload changes nothing. */
  lemma OrderIsIrrelevant(payload: seq<byte>, other: seq<byte>, c: BlockCounts)
    requires |payload| == |other| == 28 && multiset(RecordsOf(payload)) == multiset(RecordsOf(other))
    ensures Accepts(RecordsOf(payload), c) <==> Accepts(RecordsOf(other), c)
  {
    BlockCountsExact(payload, c);
    BlockCountsExact(other, c);
  }

  /** The count that `c` holds for the block type of an octet is `count`. */
  predicate Holds(c: BlockCounts, code: byte, count: int) {
    || (code == 0x38 && c.organizationBlocks == count)
    || (code == 0x41 && c.dataBlocks == count)
    || (code == 0x42 && c.systemDataBlocks == count)
    || (code == 0x43 && c.functions == count)
    || (code == 0x44 && c.systemFunctions == count)
    || (code == 0x45 && c.functionBlocks == count)
    || (code == 0x46 && c.systemFunctionBlocks == count)
  }

  lemma HoldsIsGet(c: BlockCounts, code: byte, count: u16)
    ensures Holds(c, code, count) <==> OfCode(code).Some? && Get(c, OfCode(code).value) == count
  {
  }

  /** A prefix in every record, all codes different, and each count in the field its code stands for. */
  predicate CountsHeld(records: seq<CountRecord>, c: BlockCounts) {
    && (forall i :: 0 <= i < |records| ==>
          records[i].marker == 0x30 && Holds(c, records[i].code, records[i].count))
    && (forall i, j :: 0 <= i < j < |records| ==> records[i].code != records[j].code)
  }

  lemma AcceptedAreHeld(records: seq<CountRecord>, c: BlockCounts)
    ensures Accepts(records, c) <==> CountsHeld(records, c)
  {
    forall i | 0 <= i < |records|
      ensures Accepts(records, c) ==> Takes(records, i) && Holds(c, records[i].code, records[i].count)
      ensures CountsHeld(records, c) ==> Takes(records, i) && Get(c, OfCode(records[i].code).value) == records[i].count
    {
      HoldsIsGet(c, records[i].code, records[i].count);
    }
  }

  /** The accepted payloads by their octets, four to a record. */
  lemma CountsInOctets(p: seq<byte>, c: BlockCounts)
    requires |p| == 28
    ensures var records := RecordsOf(p);
            && |records| == 7
            && (forall i :: 0 <= i < 7 ==>
                  records[i] == CountRecord(p[4 * i], p[4 * i + 1], p[4 * i + 2] as int * 256 + p[4 * i + 3] as int))
            && (Accepts(records, c) <==> CountsHeld(records, c))
  {
    assert forall i :: 0 <= i < 7 ==> RecordsOf(p)[i] == RecordAt(p, i);
    AcceptedAreHeld(RecordsOf(p), c);
  }

  /** The offending octet of the first record not taken, by its offset. */
  lemma FaultsInOctets(p: seq<byte>, i: nat)
    requires |p| == 28 && i < 7
    ensures var codes := [0x38, 0x41, 0x42, 0x43, 0x44, 0x45, 0x46];
            && (Takes(RecordsOf(p), i) <==>
                p[4 * i] == 0x30 && p[4 * i + 1] in codes &&
                forall k :: 0 <= k < 4 * i && k % 4 == 1 ==> p[k] != p[4 * i + 1])
            && (FaultAt(RecordsOf(p), i) ==
                if p[4 * i] != 0x30 then BadPrefix(4 * i)
                else if p[4 * i + 1] !in codes then UnknownType(4 * i + 1)
                else DuplicateType(4 * i + 1))
  {
    var records := RecordsOf(p);
    assert forall j :: 0 <= j <= i ==> records[j] == RecordAt(p, j);
    if Takes(records, i) {
      forall k | 0 <= k < 4 * i && k % 4 == 1 ensures p[k] != p[4 * i + 1] {
        assert records[k / 4].code != records[i].code;
      }
    }
  }

  // --- block entries ---

  datatype BlockEntry = BlockEntry(number: u16, flags: byte, language: byte)

  function EntryBytes(e: BlockEntry): (s: seq<byte>)
    ensures |s| == 4
  {
    U16(e.number) + [e.flags, e.language]
  }

  function EncodeEntries(entries: seq<BlockEntry>): (s: seq<byte>)
    ensures |s| == 4 * |entries|
  {
    if entries == [] then [] else EncodeEntries(entries[..|entries| - 1]) + EntryBytes(entries[|entries| - 1])
  }

  /** Octets 0 and 1 of an entry are its number, octet 2 its flags, octet 3 its language. */
  predicate EntriesAt(payload: seq<byte>, entries: seq<BlockEntry>) {
    && |payload| == 4 * |entries|
    && forall i :: 0 <= i < |entries| ==>
         && entries[i].number == payload[4 * i] as int * 256 + payload[4 * i + 1] as int
         && entries[i].flags == payload[4 * i + 2] && entries[i].language == payload[4 * i + 3]
  }

  lemma EntryAppended(front: seq<byte>, entries: seq<BlockEntry>, e: seq<byte>, entry: BlockEntry)
    requires EntriesAt(front, entries) && |e| == 4
    requires e[0] as int * 256 + e[1] as int == entry.number && e[2..] == [entry.flags, entry.language]
    ensures EntriesAt(front + e, entries + [entry])
  {
    var s := front + e;
    assert e[2..][0] == e[2] && e[2..][1] == e[3];
    forall i | 0 <= i < |entries|
      ensures s[4 * i] == front[4 * i] && s[4 * i + 1] == front[4 * i + 1]
      ensures s[4 * i + 2] == front[4 * i + 2] && s[4 * i + 3] == front[4 * i + 3]
    {
    }
  }

  lemma {:induction false} EntriesInOctets(entries: seq<BlockEntry>)
    ensures EntriesAt(EncodeEntries(entries), entries)
  {
    if entries == [] {
    } else {
      var m := |entries| - 1;
      var front, s := EncodeEntries(entries[..m]), EncodeEntries(entries);
      EntriesInOctets(entries[..m]);
      var e := EntryBytes(entries[m]);
      assert e[0] as int * 256 + e[1] as int == entries[m].number && e[2..] == [entries[m].flags, entries[m].language];
      hide EntryBytes, EncodeEntries;
      assert s == front + e;
      EntryAppended(front, entries[..m], e, entries[m]);
      assert entries == entries[..m] + [entries[m]];
    }
  }

  /** Every aligned payload is the concatenation of the entries decoded from it. */
  method DecodeBlockEntries(payload: seq<byte>) returns (r: Result<seq<BlockEntry>>)
    ensures r.Ok? <==> |payload| % 4 == 0
    ensures r.Ok? ==> EncodeEntries(r.value) == payload && EntriesAt(payload, r.value)
  {
    if |payload| % 4 != 0 {
      return Err(BadSize(|payload|));
    }
    var offset: nat, entries: seq<BlockEntry> := 0, [];
    for n := 0 to |payload| / 4
      invariant offset == 4 * n && |entries| == n && EncodeEntries(entries) == payload[..offset]
    {
      var entry := BlockEntry(Be16(payload, offset), payload[offset + 2], payload[offset + 3]);
      U16Inverse(payload, offset);
      assert EntryBytes(entry) == payload[offset..offset + 4];
      assert (entries + [entry])[..n] == entries;
      assert payload[..offset + 4] == payload[..offset] + payload[offset..offset + 4];
      entries := entries + [entry];
      offset := offset + 4;
    }
    assert payload[..|payload|] == payload;
    EntriesInOctets(entries);
    return Ok(entries);
  }

  /** Different entry lists have different payloads: decoding recovers what was encoded. */
  lemma {:induction false} EntriesInjective(a: seq<BlockEntry>, b: seq<BlockEntry>)
    requires EncodeEntries(a) == EncodeEntries(b)
    ensures a == b
  {
    if a == [] {
    } else {
      var m := |a| - 1;
      var s := EncodeEntries(a);
      assert s[..4 * m] == EncodeEntries(a[..m]) && s[4 * m..] == EntryBytes(a[m]);
      assert s[..4 * m] == EncodeEntries(b[..m]) && s[4 * m..] == EntryBytes(b[m]);
      EntriesInjective(a[..m], b[..m]);
      EntryInjective(a[m], b[m]);
      assert a == a[..m] + [a[m]] && b == b[..m] + [b[m]];
    }
  }

  lemma EntryInjective(a: BlockEntry, b: BlockEntry)
    requires EntryBytes(a) == EntryBytes(b)
    ensures a == b
  {
    var s := EntryBytes(a);
    assert s[..2] == U16(a.number) && s[..2] == U16(b.number);
    assert s[2] == a.flags && s[3] == a.language;
  }

  /** Encoding then decoding returns the entries, for any number of them. */
  method EntriesRoundTrip(entries: seq<BlockEntry>) returns (r: Result<seq<BlockEntry>>)
    ensures r == Ok(entries)
  {
    r := DecodeBlockEntries(EncodeEntries(entries));
    EntriesInjective(r.value, entries);
  }
}
