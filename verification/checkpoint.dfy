/** A stand-in for the capped checkpointer the batcher calls (`Track` at
    lib/input/aws_kinesis_record_batcher.go:84, `Resolve` at :101). Its own
    source is not part of this model; what follows is an assumed minimal
    implementation with the behaviour the batcher relies on: an ordered list of
    tracked indices with resolved flags, a cap on the unresolved ones, and a
    watermark at the end of the longest fully resolved prefix. */
module Checkpoint {
  import opened Types

  /** One tracked index and whether it has been resolved. */
  datatype Slot = Slot(index: nat, resolved: bool)

  /** The checkpointer: at most `limit` slots may be unresolved at once. */
  datatype Capped = Capped(limit: nat, slots: seq<Slot>)

  /** The caller's context, reduced to whether it was cancelled. It is kept only
      so that `Track` has the signature of the Go call: the context bounds how
      long the real checkpointer waits, which this model does not capture, and
      `Track` does not read it. */
  datatype Context = Context(cancelled: bool)

  /** Tracked indices are positive and strictly increasing, and the cap holds. */
  predicate Valid(c: Capped) {
    && IncreasingFrom(c.slots, 0)
    && (|c.slots| > 0 ==> c.slots[0].index > 0)
    && Unresolved(c.slots) <= c.limit
  }

  /** From position k on, each tracked index is below the next one. */
  predicate IncreasingFrom(slots: seq<Slot>, k: nat)
    decreases |slots| - k
  {
    k + 1 >= |slots| || (slots[k].index < slots[k + 1].index && IncreasingFrom(slots, k + 1))
  }

  /** The number of unresolved slots among the first k. */
  function UnresolvedIn(slots: seq<Slot>, k: nat): (n: nat)
    requires k <= |slots|
    ensures n <= k
  {
    if k == 0 then 0 else UnresolvedIn(slots, k - 1) + (if slots[k - 1].resolved then 0 else 1)
  }

  /** The number of unresolved slots. */
  function Unresolved(slots: seq<Slot>): (n: nat)
    ensures n <= |slots|
  {
    UnresolvedIn(slots, |slots|)
  }

  /** The position of the first unresolved slot at or after k, or |slots|. */
  function FirstUnresolvedFrom(slots: seq<Slot>, k: nat): (n: nat)
    requires k <= |slots|
    ensures k <= n <= |slots|
    ensures forall i :: k <= i < n ==> slots[i].resolved
    ensures n < |slots| ==> !slots[n].resolved
    decreases |slots| - k
  {
    if k == |slots| || !slots[k].resolved then k else FirstUnresolvedFrom(slots, k + 1)
  }

  /** The length of the longest prefix of resolved slots. */
  function ResolvedPrefix(slots: seq<Slot>): (n: nat)
    ensures n <= |slots|
    ensures forall i :: 0 <= i < n ==> slots[i].resolved
    ensures n < |slots| ==> !slots[n].resolved
  {
    FirstUnresolvedFrom(slots, 0)
  }

  /** The watermark: the index ending the longest resolved prefix, 0 if there is none. */
  function Top(c: Capped): nat {
    var n := ResolvedPrefix(c.slots);
    if n == 0 then 0 else c.slots[n - 1].index
  }

  /** The most recently tracked index, 0 if nothing was tracked. */
  function LastIndex(c: Capped): nat {
    if c.slots == [] then 0 else c.slots[|c.slots| - 1].index
  }

  /** The first position at or after k of the unresolved slot for `index`, if any. */
  function FindFrom(slots: seq<Slot>, index: nat, k: nat): (r: Option<nat>)
    requires k <= |slots|
    ensures r.Some? ==> k <= r.value < |slots| && slots[r.value] == Slot(index, false)
    ensures r.None? ==> forall i :: k <= i < |slots| ==> slots[i] != Slot(index, false)
    decreases |slots| - k
  {
    if k == |slots| then None
    else if slots[k] == Slot(index, false) then Some(k)
    else FindFrom(slots, index, k + 1)
  }

  /** The position of the unresolved slot for `index`, if there is one. */
  function Find(slots: seq<Slot>, index: nat): (r: Option<nat>)
    ensures r.Some? ==> r.value < |slots| && slots[r.value] == Slot(index, false)
    ensures r.None? ==> forall i :: 0 <= i < |slots| ==> slots[i] != Slot(index, false)
  {
    FindFrom(slots, index, 0)
  }

  /** A checkpointer with the given cap and nothing tracked. */
  function NewCapped(limit: nat): (c: Capped)
    ensures Valid(c) && c.limit == limit
    ensures Unresolved(c.slots) == 0 && Top(c) == 0 && LastIndex(c) == 0
  {
    Capped(limit, [])
  }

  /** Registers `index` as in flight. Where the real checkpointer would block at
      the cap until a slot frees up or the context ends, this one fails at once,
      and always with Timeout: a cancelled context and an elapsed deadline give
      the same timeout error. A failed call changes nothing. */
  function Track(c: Capped, ctx: Context, index: nat): (r: (Capped, Option<Error>))
    ensures r.1.None? <==> Unresolved(c.slots) < c.limit
    ensures r.1.Some? ==> r.0 == c && r.1 == Some(Timeout)
    ensures r.1.None? ==> r.0 == c.(slots := c.slots + [Slot(index, false)])
  {
    if Unresolved(c.slots) < c.limit then (c.(slots := c.slots + [Slot(index, false)]), None)
    else (c, Some(Timeout))
  }

  /** Marks `index` resolved and returns the new watermark. An index that is not
      tracked, or already resolved, gives OutOfSync and changes nothing. */
  function Resolve(c: Capped, index: nat): (r: (Capped, nat, Option<Error>))
    ensures r.2.None? <==> Find(c.slots, index).Some?
    ensures r.2.Some? ==> r == (c, 0, Some(OutOfSync))
    ensures r.2.None? ==> r.1 == Top(r.0) && r.0.limit == c.limit
  {
    match Find(c.slots, index)
    case None => (c, 0, Some(OutOfSync))
    case Some(p) =>
      var c' := c.(slots := c.slots[p := Slot(index, true)]);
      (c', Top(c'), None)
  }

  // ---------------------------------------------------------------------------
  // Properties of the stand-in

  /** The first unresolved position is determined by its two defining properties. */
  lemma {:induction false} FirstUnresolvedIs(slots: seq<Slot>, k: nat, n: nat)
    requires k <= n <= |slots|
    requires forall i :: k <= i < n ==> slots[i].resolved
    requires n < |slots| ==> !slots[n].resolved
    ensures FirstUnresolvedFrom(slots, k) == n
    decreases n - k
  {
    if k < n {
      FirstUnresolvedIs(slots, k + 1, n);
    }
  }

  /** Resolving more slots can only push the first unresolved position further. */
  lemma {:induction false} FirstUnresolvedMonotone(slots: seq<Slot>, slots': seq<Slot>, k: nat)
    requires |slots'| == |slots| && k <= |slots|
    requires forall i :: 0 <= i < |slots| && slots[i].resolved ==> slots'[i].resolved
    ensures FirstUnresolvedFrom(slots', k) >= FirstUnresolvedFrom(slots, k)
    decreases |slots| - k
  {
    if k < |slots| && slots[k].resolved {
      FirstUnresolvedMonotone(slots, slots', k + 1);
    }
  }

  lemma PrefixAppendUnresolved(slots: seq<Slot>, index: nat)
    ensures ResolvedPrefix(slots + [Slot(index, false)]) == ResolvedPrefix(slots)
  {
    var s' := slots + [Slot(index, false)];
    var n := ResolvedPrefix(slots);
    assert s'[n] == if n < |slots| then slots[n] else Slot(index, false);
    FirstUnresolvedIs(s', 0, n);
  }

  lemma PrefixGrows(slots: seq<Slot>, p: nat)
    requires p < |slots|
    ensures ResolvedPrefix(slots[p := Slot(slots[p].index, true)]) >= ResolvedPrefix(slots)
  {
    FirstUnresolvedMonotone(slots, slots[p := Slot(slots[p].index, true)], 0);
  }

  lemma {:induction false} UnresolvedInAppend(slots: seq<Slot>, x: Slot, k: nat)
    requires k <= |slots|
    ensures UnresolvedIn(slots + [x], k) == UnresolvedIn(slots, k)
  {
    if k > 0 {
      UnresolvedInAppend(slots, x, k - 1);
      assert (slots + [x])[k - 1] == slots[k - 1];
    }
  }

  lemma {:induction false} UnresolvedInAfterMark(slots: seq<Slot>, p: nat, k: nat)
    requires p < |slots| && !slots[p].resolved && k <= |slots|
    ensures UnresolvedIn(slots[p := Slot(slots[p].index, true)], k) == UnresolvedIn(slots, k) - (if p < k then 1 else 0)
  {
    if k > 0 {
      UnresolvedInAfterMark(slots, p, k - 1);
    }
  }

  /** No slot among the first k is unresolved exactly when all of them are resolved. */
  lemma {:induction false} NoneUnresolved(slots: seq<Slot>, k: nat)
    requires k <= |slots|
    ensures UnresolvedIn(slots, k) == 0 <==> forall i :: 0 <= i < k ==> slots[i].resolved
  {
    if k > 0 {
      NoneUnresolved(slots, k - 1);
    }
  }

  /** Increasing indices are pairwise ordered. */
  lemma {:induction false} IncreasingAt(slots: seq<Slot>, k: nat, i: nat, j: nat)
    requires IncreasingFrom(slots, k) && k <= i < j < |slots|
    ensures slots[i].index < slots[j].index
    decreases j - k
  {
    if k < i {
      IncreasingAt(slots, k + 1, i, j);
    } else if i + 1 < j {
      IncreasingAt(slots, k + 1, i + 1, j);
    }
  }

  /** Appending an index above the last one keeps the indices increasing. */
  lemma {:induction false} IncreasingAppend(slots: seq<Slot>, x: Slot, k: nat)
    requires IncreasingFrom(slots, k) && k <= |slots|
    requires slots != [] ==> slots[|slots| - 1].index < x.index
    ensures IncreasingFrom(slots + [x], k)
    decreases |slots| - k
  {
    var s' := slots + [x];
    if k + 1 < |slots| {
      IncreasingAppend(slots, x, k + 1);
    }
    if k < |slots| {
      assert s'[k] == slots[k];
    }
  }

  /** Whether indices increase depends only on the indices. */
  lemma {:induction false} IncreasingSameIndices(slots: seq<Slot>, slots': seq<Slot>, k: nat)
    requires IncreasingFrom(slots, k)
    requires |slots'| == |slots| && forall i :: 0 <= i < |slots| ==> slots'[i].index == slots[i].index
    ensures IncreasingFrom(slots', k)
    decreases |slots| - k
  {
    if k + 1 < |slots| {
      IncreasingSameIndices(slots, slots', k + 1);
    }
  }

  /** Track adds one unresolved slot at the end: the watermark stays where it
      was, the in-flight count grows by one and stays within the cap. */
  lemma TrackKeepsWatermark(c: Capped, ctx: Context, index: nat)
    requires Valid(c) && index > LastIndex(c)
    requires Track(c, ctx, index).1.None?
    ensures var c' := Track(c, ctx, index).0;
      && Valid(c') && LastIndex(c') == index && Top(c') == Top(c)
      && Unresolved(c'.slots) == Unresolved(c.slots) + 1 <= c.limit
  {
    PrefixAppendUnresolved(c.slots, index);
    UnresolvedInAppend(c.slots, Slot(index, false), |c.slots|);
    IncreasingAppend(c.slots, Slot(index, false), 0);
  }

  /** The watermark never passes the last tracked index. */
  lemma TopAtMostLast(c: Capped)
    requires Valid(c)
    ensures Top(c) <= LastIndex(c)
  {
    var n := ResolvedPrefix(c.slots);
    if 0 < n < |c.slots| {
      IncreasingAt(c.slots, 0, n - 1, |c.slots| - 1);
    }
  }

  /** The watermark is 0 or a tracked index. */
  lemma TopIsTracked(c: Capped)
    ensures Top(c) == 0 || exists i :: 0 <= i < |c.slots| && c.slots[i].index == Top(c)
  {
    var n := ResolvedPrefix(c.slots);
    if n > 0 {
      assert c.slots[n - 1].index == Top(c);
    }
  }

  /** Every slot at or below the watermark is resolved. */
  lemma ResolvedUpToTop(c: Capped)
    requires Valid(c)
    ensures forall i :: 0 <= i < |c.slots| && c.slots[i].index <= Top(c) ==> c.slots[i].resolved
  {
    var n := ResolvedPrefix(c.slots);
    forall i | n <= i < |c.slots| ensures c.slots[i].index > Top(c) {
      if n > 0 {
        IncreasingAt(c.slots, 0, n - 1, i);
      } else if i > 0 {
        IncreasingAt(c.slots, 0, 0, i);
      }
    }
  }

  /** The watermark is the highest index with that property: any tracked index
      above it has an unresolved slot at or below it. */
  lemma TopIsHighest(c: Capped)
    requires Valid(c)
    ensures forall j :: 0 <= j < |c.slots| && c.slots[j].index > Top(c) ==>
      exists i :: 0 <= i <= j && !c.slots[i].resolved
  {
    var n := ResolvedPrefix(c.slots);
    forall j | 0 <= j < n ensures c.slots[j].index <= Top(c) {
      if j < n - 1 {
        IncreasingAt(c.slots, 0, j, n - 1);
      }
    }
    forall j | 0 <= j < |c.slots| && c.slots[j].index > Top(c)
      ensures exists i :: 0 <= i <= j && !c.slots[i].resolved
    {
      assert !c.slots[n].resolved;
    }
  }

  /** Resolving never moves the watermark backwards. */
  lemma ResolveAdvancesTop(c: Capped, index: nat)
    requires Valid(c)
    ensures Top(Resolve(c, index).0) >= Top(c)
  {
    var f := Find(c.slots, index);
    if f.Some? {
      var p := f.value;
      PrefixGrows(c.slots, p);
      var c' := Resolve(c, index).0;
      assert c'.slots == c.slots[p := Slot(c.slots[p].index, true)];
      var n, n' := ResolvedPrefix(c.slots), ResolvedPrefix(c'.slots);
      if n > 0 {
        assert c'.slots[n' - 1].index == c.slots[n' - 1].index;
        if n < n' {
          IncreasingAt(c.slots, 0, n - 1, n' - 1);
        }
      }
    }
  }

  /** A successful Resolve keeps the checkpointer valid, keeps every tracked
      index in place, and frees exactly one unit of capacity. */
  lemma ResolveKeepsValid(c: Capped, index: nat)
    requires Valid(c) && Find(c.slots, index).Some?
    ensures var c' := Resolve(c, index).0;
      && Valid(c') && |c'.slots| == |c.slots| && LastIndex(c') == LastIndex(c)
      && (forall i :: 0 <= i < |c.slots| ==> c'.slots[i].index == c.slots[i].index)
      && Unresolved(c'.slots) == Unresolved(c.slots) - 1
  {
    var p := Find(c.slots, index).value;
    UnresolvedInAfterMark(c.slots, p, |c.slots|);
    IncreasingSameIndices(c.slots, Resolve(c, index).0.slots, 0);
  }

  /** A successful Resolve marks the slot of `index` resolved and no other:
      every other slot keeps its flag. */
  lemma ResolveMarksOnlyIndex(c: Capped, index: nat)
    requires Valid(c) && Find(c.slots, index).Some?
    ensures var c' := Resolve(c, index).0;
      && |c'.slots| == |c.slots|
      && forall i :: 0 <= i < |c.slots| ==> (c'.slots[i].resolved <==> c.slots[i].resolved || c.slots[i].index == index)
  {
    var p := Find(c.slots, index).value;
    var c' := Resolve(c, index).0;
    forall i | 0 <= i < |c.slots| && i != p
      ensures c'.slots[i] == c.slots[i] && c.slots[i].index != index
    {
      if i < p {
        IncreasingAt(c.slots, 0, i, p);
      } else {
        IncreasingAt(c.slots, 0, p, i);
      }
    }
  }

  /** A Track that hit the cap succeeds after a successful Resolve, whatever the
      outcome of the resolved batch. */
  lemma ResolveFreesCapacity(c: Capped, ctx: Context, index: nat, next: nat)
    requires Valid(c) && Find(c.slots, index).Some?
    requires Track(c, ctx, next).1.Some?
    ensures Track(Resolve(c, index).0, ctx, next).1.None?
  {
    ResolveKeepsValid(c, index);
  }

  /** Resolving the same index twice: the second call fails and changes nothing. */
  lemma ResolveTwiceIsOutOfSync(c: Capped, index: nat)
    requires Valid(c) && Find(c.slots, index).Some?
    ensures var c' := Resolve(c, index).0;
      Resolve(c', index) == (c', 0, Some(OutOfSync))
  {
    var p := Find(c.slots, index).value;
    var c' := Resolve(c, index).0;
    forall i | 0 <= i < |c'.slots| ensures c'.slots[i] != Slot(index, false) {
      if i < p {
        IncreasingAt(c.slots, 0, i, p);
      } else if i > p {
        IncreasingAt(c.slots, 0, p, i);
      }
    }
  }

  /** Once nothing is unresolved the watermark is the last tracked index. */
  lemma DrainedTopIsLast(c: Capped)
    requires Valid(c) && Unresolved(c.slots) == 0
    ensures Top(c) == LastIndex(c)
  {
    NoneUnresolved(c.slots, |c.slots|);
    FirstUnresolvedIs(c.slots, 0, |c.slots|);
  }

  /** Three batches tracked as 1, 2 and 3 and resolved in the order 2, 1, 3:
      the watermark stays at 0, then jumps to 2, then reaches 3. */
  lemma OutOfOrderScenario()
    ensures var c0 := NewCapped(3);
      var c1 := Track(Track(Track(c0, Context(false), 1).0, Context(false), 2).0, Context(false), 3).0;
      var r2 := Resolve(c1, 2);
      var r1 := Resolve(r2.0, 1);
      var r3 := Resolve(r1.0, 3);
      && c1 == Capped(3, [Slot(1, false), Slot(2, false), Slot(3, false)])
      && r2.1 == 0 && r2.2 == None
      && r1.1 == 2 && r1.2 == None
      && r3.1 == 3 && r3.2 == None
  {
    var s := [Slot(1, false), Slot(2, false), Slot(3, false)];
    assert Unresolved([Slot(1, false)]) == 1;
    assert Unresolved([Slot(1, false), Slot(2, false)]) == 2;
    assert Find(s, 2) == Some(1);
    var s2 := [Slot(1, false), Slot(2, true), Slot(3, false)];
    FirstUnresolvedIs(s2, 0, 0);
    assert Find(s2, 1) == Some(0);
    var s1 := [Slot(1, true), Slot(2, true), Slot(3, false)];
    FirstUnresolvedIs(s1, 0, 2);
    assert Find(s1, 3) == Some(2);
    var s3 := [Slot(1, true), Slot(2, true), Slot(3, true)];
    FirstUnresolvedIs(s3, 0, 3);
  }
}
