/** The two delta-debugging reducers: the fuzzing campaign's, which runs to a local
    minimum, and the conversation campaign's, which stops at a call budget. */
module Reducers {
  import opened Bytes

  /** `result` keeps exactly the elements of `source` at the positions `kept`, in order. */
  ghost predicate Picks<T>(kept: seq<nat>, source: seq<T>, result: seq<T>) {
    && |kept| == |result|
    && (forall i :: 0 <= i < |kept| ==> kept[i] < |source| && result[i] == source[kept[i]])
    && (forall i, j :: 0 <= i < j < |kept| ==> kept[i] < kept[j])
  }

  ghost predicate Subsequence<T>(result: seq<T>, source: seq<T>) {
    exists kept :: Picks(kept, source, result)
  }

  /** `s[:at] + s[at + width:]`, with the source's clamped slices. */
  function Delete<T>(s: seq<T>, at: nat, width: nat): (r: seq<T>)
    requires at < |s|
    ensures |r| == |s| - (if at + width <= |s| then width else |s| - at)
  {
    s[..at] + (if at + width <= |s| then s[at + width..] else [])
  }

  /** Putting the deleted run back in its place restores the whole; only the end cuts it short. */
  lemma DeletionRestores<T>(s: seq<T>, at: nat, width: nat) returns (run: seq<T>)
    requires at < |s|
    ensures |run| == width || (|run| < width && |Delete(s, at, width)| == at)
    ensures at <= |Delete(s, at, width)| && s == Delete(s, at, width)[..at] + run + Delete(s, at, width)[at..]
  {
    run := if at + width <= |s| then s[at..at + width] else s[at..];
  }

  lemma DeletePicks<T>(kept: seq<nat>, source: seq<T>, s: seq<T>, at: nat, width: nat)
    requires Picks(kept, source, s) && at < |s|
    ensures Picks(Delete(kept, at, width), source, Delete(s, at, width))
  {
  }

  function Positions(n: nat): (s: seq<nat>)
    ensures |s| == n && forall i :: 0 <= i < n ==> s[i] == i
  {
    seq(n, (i: nat) => i)
  }

  lemma PicksAll<T>(source: seq<T>)
    ensures Picks(Positions(|source|), source, source)
  {
  }

  /** No single nonempty deletion still fails. */
  predicate OneMinimal<T>(s: seq<T>, fails: seq<T> -> bool) {
    forall i :: 0 <= i < |s| ==> Delete(s, i, 1) == [] || !fails(Delete(s, i, 1))
  }

  /** No single deletion still fails, the empty one included. */
  predicate FullyMinimal<T>(s: seq<T>, fails: seq<T> -> bool) {
    forall i :: 0 <= i < |s| ==> !fails(Delete(s, i, 1))
  }

  /** Unbudgeted reduction, for any predicate: monotonicity is not assumed. */
  method Minimize<T(==)>(events: seq<T>, fails: seq<T> -> bool) returns (result: seq<T>)
    ensures Subsequence(result, events)
    ensures result == events || fails(result)
    ensures fails(events) ==> fails(result)
    ensures events != [] ==> result != []
    ensures OneMinimal(result, fails)
  {
    hide Delete, Picks;
    result := events;
    ghost var kept := Positions(|events|);
    PicksAll(events);
    var width: nat := if |result| / 2 > 1 then |result| / 2 else 1;
    while width > 0
      invariant Picks(kept, events, result) && |kept| == |result|
      invariant result == events || fails(result)
      invariant events != [] ==> result != []
      invariant width == 0 ==> OneMinimal(result, fails)
    {
      var index := 0;
      while index < |result|
        invariant Picks(kept, events, result) && |kept| == |result|
        invariant result == events || fails(result)
        invariant events != [] ==> result != []
        invariant width == 1 ==> forall i :: 0 <= i < index && i < |result| ==>
                                   Delete(result, i, 1) == [] || !fails(Delete(result, i, 1))
        decreases |result|, |result| - index
      {
        var candidate := Delete(result, index, width);
        if candidate != [] && fails(candidate) {
          DeletePicks(kept, events, result, index, width);
          kept := Delete(kept, index, width);
          result := candidate;
          index := 0;
        } else {
          index := index + width;
        }
      }
      width := width / 2;
    }
  }

  lemma ProductStep(n: nat, a: nat, b: nat)
    requires a < b
    ensures Product(n, a) + n <= Product(n, b)
  {
    var gap: nat := b - a - 1;
    assert n * b == n * a + n * (gap + 1);
    assert n * (gap + 1) == n * gap + n;
  }

  function StartWidth(n: nat): nat { if n / 2 > 1 then n / 2 else 1 }

  /** The calls that always suffice, however the predicate behaves. */
  function CallBound(n: nat): nat { Product(n, n + StartWidth(n)) }

  /** One pass over the deletions of `width` elements, up to the first that still fails. */
  method DeletionPass<T(==)>(plan: seq<T>, fails: seq<T> -> bool, width: nat, tried: nat, budget: nat)
    returns (at: Option<nat>, attempts: nat)
    requires plan != [] && width >= 1 && tried < budget
    ensures tried < attempts <= budget && attempts <= tried + |plan|
    ensures at.Some? ==> at.value < |plan| && fails(Delete(plan, at.value, width))
    ensures fails(Delete(plan, 0, width)) ==> at == Some(0)
    ensures at.None? && width == 1 && attempts < budget ==> FullyMinimal(plan, fails)
  {
    attempts := tried;
    var offset := 0;
    while offset < |plan|
      invariant tried <= attempts <= tried + offset && (offset == 0 || attempts > tried) && attempts < budget
      invariant width == 1 ==> attempts == tried + offset <= tried + |plan|
      invariant offset >= |plan| ==> attempts <= tried + |plan|
      invariant offset > 0 ==> !fails(Delete(plan, 0, width))
      invariant width == 1 ==> forall i :: 0 <= i < offset && i < |plan| ==> !fails(Delete(plan, i, 1))
    {
      attempts := attempts + 1;
      if fails(Delete(plan, offset, width)) {
        return Some(offset), attempts;
      }
      if attempts >= budget {
        return None, attempts;
      }
      offset := offset + width;
    }
    at := None;
  }

  /** The first deletion tried still fails. */
  predicate HalvesFail<T>(original: seq<T>, fails: seq<T> -> bool) {
    original != [] && fails(Delete(original, 0, if |original| >= 4 then |original| / 2 else 1))
  }

  /** Budgeted reduction; refuses a plan that does not fail. Below its budget, or with
      a budget of more than `CallBound`, it reaches a full local minimum; it gets shorter
      when its first deletion may be kept. */
  method MinimizeWithin<T(==)>(original: seq<T>, fails: seq<T> -> bool, budget: int)
    returns (reduced: Option<seq<T>>, ghost calls: nat)
    ensures reduced.Some? <==> fails(original)
    ensures reduced.Some? ==> fails(reduced.value) && Subsequence(reduced.value, original)
    ensures calls <= 1 + (if budget > 0 then budget else 0)
    ensures calls <= 1 + CallBound(|original|)
    ensures reduced.Some? && calls - 1 < budget ==> FullyMinimal(reduced.value, fails)
    ensures reduced.Some? && budget > CallBound(|original|) ==> FullyMinimal(reduced.value, fails)
    ensures reduced.Some? && budget > 0 && HalvesFail(original, fails) ==> |reduced.value| < |original|
  {
    hide Product, Delete;
    if !fails(original) {
      return None, 1;
    }
    var plan := original;
    ghost var kept := Positions(|original|);
    PicksAll(original);
    ghost var n := |original|;
    var width := if |plan| / 2 > 1 then |plan| / 2 else 1;
    var attempts: nat := 0;
    while plan != [] && attempts < budget
      invariant Picks(kept, original, plan) && fails(plan) && |plan| <= n && width >= 1
      invariant attempts <= (if budget > 0 then budget else 0)
      invariant attempts + Product(n, |plan| + width) <= CallBound(n)
      invariant if attempts == 0 then plan == original && width == StartWidth(n)
                else HalvesFail(original, fails) ==> |plan| < n
      decreases budget - attempts
    {
      ghost var before, wide := plan, width;
      var at: Option<nat>;
      at, attempts := DeletionPass(plan, fails, width, attempts, budget);
      if at.None? {
        if width == 1 {
          ProductStep(n, |plan|, |plan| + width);
          return Some(plan), attempts + 1;
        }
        width := if width / 2 > 1 then width / 2 else 1;
      } else {
        DeletePicks(kept, original, plan, at.value, width);
        kept := Delete(kept, at.value, width);
        plan := Delete(plan, at.value, width);
        var longest := if |plan| > 1 then |plan| else 1;
        width := if width < longest then width else longest;
      }
      ProductStep(n, |plan| + width, |before| + wide);
    }
    assert attempts <= CallBound(n);
    return Some(plan), attempts + 1;
  }

  // --- reduction of whole operations ---

  /** Operations are reduced as opaque keys, numbered from 0x100. */
  function KeysOf(n: nat): (keys: seq<nat>)
    ensures |keys| == n && forall i :: 0 <= i < n ==> keys[i] == 0x100 + i
  {
    seq(n, (i: nat) => 0x100 + i)
  }

  predicate KeysFor(n: nat, keys: seq<nat>) {
    forall i :: 0 <= i < |keys| ==> 0x100 <= keys[i] < 0x100 + n
  }

  /** The operations a candidate's keys stand for. */
  function Lookup<T>(operations: seq<T>, keys: seq<nat>): (s: seq<T>)
    ensures KeysFor(|operations|, keys) ==>
              |s| == |keys| && forall i :: 0 <= i < |keys| ==> s[i] == operations[keys[i] - 0x100]
  {
    if KeysFor(|operations|, keys)
    then seq(|keys|, i requires 0 <= i < |keys| => operations[keys[i] - 0x100])
    else []
  }

  lemma LookupAll<T>(operations: seq<T>)
    ensures Lookup(operations, KeysOf(|operations|)) == operations
  {
    var keys := KeysOf(|operations|);
    assert KeysFor(|operations|, keys);
    var found := Lookup(operations, keys);
    hide Lookup, KeysFor;
    assert |found| == |operations|;
    assert forall i :: 0 <= i < |found| ==> found[i] == operations[i];
  }

  /** A subsequence of the keys stands for the same subsequence of the operations. */
  lemma LookupPicks<T>(operations: seq<T>, keys: seq<nat>, kept: seq<nat>)
    requires Picks(kept, KeysOf(|operations|), keys)
    ensures KeysFor(|operations|, keys) && Picks(kept, operations, Lookup(operations, keys))
  {
    forall i | 0 <= i < |keys| ensures 0x100 <= keys[i] < 0x100 + |operations| {
      assert keys[i] == KeysOf(|operations|)[kept[i]];
    }
  }

  /** Deleting one key deletes exactly one whole operation. */
  lemma LookupDelete<T>(operations: seq<T>, keys: seq<nat>, i: nat)
    requires KeysFor(|operations|, keys) && i < |keys|
    ensures KeysFor(|operations|, Delete(keys, i, 1))
    ensures Lookup(operations, Delete(keys, i, 1)) == Delete(Lookup(operations, keys), i, 1)
  {
    var shorter := Delete(keys, i, 1);
    assert forall k :: 0 <= k < |shorter| ==> shorter[k] == keys[if k < i then k else k + 1];
    var left, right := Lookup(operations, shorter), Delete(Lookup(operations, keys), i, 1);
    forall k | 0 <= k < |left| ensures left[k] == right[k] {
      assert right[k] == Lookup(operations, keys)[if k < i then k else k + 1];
    }
  }

  /** Reduces a plan of operations by their keys: every retained operation is intact and
      in order, under the same budget and minimality as the reducer it reuses. */
  method ReducePlan<T(==)>(operations: seq<T>, fails: seq<T> -> bool, budget: int)
    returns (reduced: Option<seq<T>>, ghost calls: nat)
    ensures reduced.Some? <==> fails(operations)
    ensures reduced.Some? ==> fails(reduced.value) && Subsequence(reduced.value, operations)
    ensures calls <= 1 + (if budget > 0 then budget else 0)
    ensures reduced.Some? && (calls - 1 < budget || budget > CallBound(|operations|)) ==>
              FullyMinimal(reduced.value, fails)
  {
    LookupAll(operations);
    var failsByKey := (candidate: seq<nat>) => fails(Lookup(operations, candidate));
    var keys;
    keys, calls := MinimizeWithin(KeysOf(|operations|), failsByKey, budget);
    if keys.None? {
      return None, calls;
    }
    var result := Lookup(operations, keys.value);
    ghost var kept :| Picks(kept, KeysOf(|operations|), keys.value);
    LookupPicks(operations, keys.value, kept);
    if FullyMinimal(keys.value, failsByKey) {
      forall i | 0 <= i < |result| ensures !fails(Delete(result, i, 1)) {
        LookupDelete(operations, keys.value, i);
        assert !failsByKey(Delete(keys.value, i, 1));
      }
    }
    return Some(result), calls;
  }
}
