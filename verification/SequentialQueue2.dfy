/** AtomicQueue2 and AtomicQueueB2 run one call at a time (src/atomic_queue2.rs), with
    their arrays, loops and 64-bit counters, proved to be a bounded FIFO.

    A call whose slot is not ready repeats a round that changes nothing (`TryFill`,
    `TryEmpty`); alone it never returns, so such calls are not part of a history.
 */
module SequentialQueue2 {
  import opened Arith
  import opened Arch
  import opened Options
  import opened Ring
  import opened Common
  import opened Fifo

  const EMPTY: int := 0
  const FULL: int := 1

  /** The slots `live` are FULL and hold the elements of `contents`; all others are EMPTY and
      uninitialised. */
  ghost predicate SlotsHold<T>(live: seq<nat>, contents: seq<T>, states: seq<int>, elements: seq<Option<T>>) {
    |live| == |contents| && |states| == |elements| && Distinct(live) &&
    (forall k :: 0 <= k < |live| ==> live[k] < |states| && elements[live[k]] == Some(contents[k])) &&
    (forall x :: 0 <= x < |states| ==>
       if x in live then states[x] == FULL else states[x] == EMPTY && elements[x] == None)
  }

  lemma PushedSlots<T>(live: seq<nat>, c: seq<T>, states: seq<int>, elements: seq<Option<T>>, s: nat, v: T)
    requires SlotsHold(live, c, states, elements) && s < |states| && s !in live
    ensures SlotsHold(live + [s], c + [v], states[s := FULL], elements[s := Some(v)])
  {
  }

  lemma PoppedSlots<T>(live: seq<nat>, c: seq<T>, states: seq<int>, elements: seq<Option<T>>)
    requires SlotsHold(live, c, states, elements) && c != []
    ensures states[live[0]] == FULL && elements[live[0]] == Some(c[0])
    ensures SlotsHold(live[1..], c[1..], states[live[0] := EMPTY], elements[live[0] := None])
  {
    var states', elements' := states[live[0] := EMPTY], elements[live[0] := None];
    forall x | 0 <= x < |states|
      ensures if x in live[1..] then states'[x] == FULL else states'[x] == EMPTY && elements'[x] == None
    {
      assert x in live <==> x == live[0] || x in live[1..];
    }
    forall k | 0 <= k < |live| - 1 ensures elements'[live[1..][k]] == Some(c[1..][k]) {
      assert live[k + 1] != live[0];
    }
  }

  // ---------- Histories in which every call returns ----------

  /** Alone, a blocking call returns only if it has no one to wait for, and a push that finds
      room only if the slot of its position is free. */
  ghost predicate Returns<T>(capacity: nat, tail: Word, c: seq<T>, op: Op<T>)
    requires 1 <= capacity
  {
    Allowed(capacity, c, op) && (Pushes(op) && |c| < capacity ==> NextIsFree(capacity, tail, |c|))
  }

  function TailAfter<T>(tail: Word, c: seq<T>, op: Op<T>): Word {
    if !Pushes(op) && c != [] then (tail + 1) % WORD else tail
  }

  ghost predicate AllReturn<T>(capacity: nat, tail: Word, c: seq<T>, ops: seq<Op<T>>)
    requires 1 <= capacity
    decreases |ops|
  {
    ops != [] ==>
      Returns(capacity, tail, c, ops[0]) &&
      AllReturn(capacity, TailAfter(tail, c, ops[0]), After(capacity, c, ops[0]), ops[1..])
  }

  /** With a power-of-two capacity, and otherwise as long as the counters do not reach the
      wrap, these are the histories whose blocking calls have no one to wait for. */
  lemma {:induction false} AllAllowedReturn<T>(capacity: nat, tail: Word, c: seq<T>, ops: seq<Op<T>>)
    requires 1 <= capacity && AllAllowed(capacity, c, ops)
    requires IsPow2(capacity) || tail + |c| + |ops| < WORD
    ensures AllReturn(capacity, tail, c, ops)
    decreases |ops|
  {
    if ops != [] {
      AllAllowedReturn(capacity, TailAfter(tail, c, ops[0]), After(capacity, c, ops[0]), ops[1..]);
    }
  }

  ghost predicate OnlyTries<T>(ops: seq<Op<T>>) {
    forall op <- ops :: op.TryPush? || op.TryPop?
  }

  /** With the tail as far before the wrap as a word leaves over, the push after as many as
      that finds its slot taken. */
  lemma {:induction false} PushesAcrossWrap<T>(capacity: nat, tail: Word, c: seq<T>, x: T) returns (ops: seq<Op<T>>)
    requires 1 <= capacity <= WORD / 2 && !IsPow2(capacity)
    requires tail + WORD % capacity == WORD && |c| <= WORD % capacity
    ensures OnlyTries(ops) && AllAllowed(capacity, c, ops) && !AllReturn(capacity, tail, c, ops)
    decreases WORD % capacity - |c|
  {
    if |c| == WORD % capacity {
      ops := [TryPush(x)];
    } else {
      var rest := PushesAcrossWrap(capacity, tail, c + [x], x);
      ops := [TryPush(x)] + rest;
      assert ops[1..] == rest;
    }
  }

  /** Pushes and pops in turn bring an empty queue there. */
  lemma {:induction false} TurnsToWrap<T>(capacity: nat, tail: Word, x: T) returns (ops: seq<Op<T>>)
    requires 1 <= capacity <= WORD / 2 && !IsPow2(capacity) && tail + WORD % capacity <= WORD
    ensures OnlyTries(ops) && AllAllowed(capacity, [], ops) && !AllReturn(capacity, tail, [], ops)
    decreases WORD - tail
  {
    if tail + WORD % capacity == WORD {
      ops := PushesAcrossWrap(capacity, tail, [], x);
    } else {
      WordRemainder(capacity);
      ModSmall(tail + 1, WORD);
      var rest := TurnsToWrap(capacity, tail + 1, x);
      ops := [TryPush(x), TryPop] + rest;
      assert ops[1..] == [TryPop] + rest && ops[1..][1..] == rest;
      assert TailAfter(tail, [x], TryPop) == tail + 1;
    }
  }

  /** Every other capacity has a history of `try_` calls from `new` in which a push that has
      found room never returns ... */
  lemma WrapStrands<T>(capacity: nat, x: T) returns (ops: seq<Op<T>>)
    requires 1 <= capacity <= WORD / 2 && !IsPow2(capacity)
    ensures OnlyTries(ops) && AllAllowed(capacity, [], ops) && !AllReturn(capacity, 0, [], ops)
  {
    WordRemainder(capacity);
    ops := TurnsToWrap(capacity, 0, x);
  }

  /** ... so the calls of every history that has no one to wait for return exactly when the
      capacity is a power of two. */
  lemma AllReturnExactlyForPow2<T>(capacity: nat, x: T)
    requires 1 <= capacity <= WORD / 2
    ensures IsPow2(capacity) <==>
            forall ops: seq<Op<T>> :: AllAllowed(capacity, [], ops) ==> AllReturn(capacity, 0, [], ops)
  {
    if IsPow2(capacity) {
      forall ops: seq<Op<T>> | AllAllowed(capacity, [], ops) ensures AllReturn(capacity, 0, [], ops) {
        AllAllowedReturn(capacity, 0, [], ops);
      }
    } else {
      var ops := WrapStrands(capacity, x);
    }
  }

  lemma {:induction false} ReturningIsAllowed<T>(capacity: nat, tail: Word, c: seq<T>, ops: seq<Op<T>>)
    requires 1 <= capacity && AllReturn(capacity, tail, c, ops)
    ensures AllAllowed(capacity, c, ops)
    decreases |ops|
  {
    if ops != [] {
      ReturningIsAllowed(capacity, TailAfter(tail, c, ops[0]), After(capacity, c, ops[0]), ops[1..]);
    }
  }

  // ---------- Dropping what is left ----------

  /** The element whose slot has index `i`, if any. */
  function WithIndex<T>(c: seq<T>, indices: seq<nat>, i: nat): seq<T>
    requires |c| == |indices|
  {
    if c == [] then []
    else
      var m := |c| - 1;
      if indices[m] == i then [c[m]] else WithIndex(c[..m], indices[..m], i)
  }

  /** The elements whose slots have the indices below `n`, in the order of the indices. */
  function InIndexOrder<T>(c: seq<T>, indices: seq<nat>, n: nat): seq<T>
    requires |c| == |indices|
    decreases n
  {
    if n == 0 then [] else InIndexOrder(c, indices, n - 1) + WithIndex(c, indices, n - 1)
  }

  lemma {:induction false} WithoutIndex<T>(c: seq<T>, indices: seq<nat>, i: nat)
    requires |c| == |indices| && i !in indices
    ensures WithIndex(c, indices, i) == []
  {
    if c != [] {
      WithoutIndex(c[..|c| - 1], indices[..|c| - 1], i);
    }
  }

  lemma {:induction false} WithIndexAt<T>(c: seq<T>, indices: seq<nat>, k: nat)
    requires |c| == |indices| && Distinct(indices) && k < |c|
    ensures WithIndex(c, indices, indices[k]) == [c[k]]
  {
    if k < |c| - 1 {
      WithIndexAt(c[..|c| - 1], indices[..|c| - 1], k);
    }
  }

  /** The last element does not matter before its index ... */
  lemma {:induction false} OrderBeforeLast<T>(c: seq<T>, indices: seq<nat>, m: nat, n: nat)
    requires |c| == |indices| == m + 1 && n <= indices[m]
    ensures InIndexOrder(c, indices, n) == InIndexOrder(c[..m], indices[..m], n)
    decreases n
  {
    if n > 0 {
      OrderBeforeLast(c, indices, m, n - 1);
    }
  }

  /** ... and from there on is inserted among the others. */
  lemma {:induction false} OrderWithLast<T>(c: seq<T>, indices: seq<nat>, m: nat, n: nat) returns (a: seq<T>, b: seq<T>)
    requires |c| == |indices| == m + 1 && Distinct(indices) && indices[m] < n
    ensures InIndexOrder(c[..m], indices[..m], n) == a + b
    ensures InIndexOrder(c, indices, n) == a + [c[m]] + b
    decreases n
  {
    var next := WithIndex(c[..m], indices[..m], n - 1);
    if n == indices[m] + 1 {
      OrderBeforeLast(c, indices, m, n - 1);
      WithoutIndex(c[..m], indices[..m], n - 1);
      a, b := InIndexOrder(c[..m], indices[..m], n - 1), [];
    } else {
      a, b := OrderWithLast(c, indices, m, n - 1);
      assert a + [c[m]] + b + next == a + [c[m]] + (b + next);
      b := b + next;
    }
  }

  lemma InsertedMultiset<T>(a: seq<T>, x: T, b: seq<T>)
    ensures multiset(a + [x] + b) == multiset(a + b) + multiset{x}
  {
  }

  /** Nothing is left out and nothing is taken twice. */
  lemma {:induction false} OrderKeepsAll<T>(c: seq<T>, indices: seq<nat>, n: nat)
    requires |c| == |indices| && Distinct(indices) && forall k :: 0 <= k < |indices| ==> indices[k] < n
    ensures multiset(InIndexOrder(c, indices, n)) == multiset(c)
  {
    if c == [] {
      NothingInOrder(c, indices, n);
    } else {
      var m := |c| - 1;
      var a, b := OrderWithLast(c, indices, m, n);
      InsertedMultiset(a, c[m], b);
      OrderKeepsAll(c[..m], indices[..m], n);
      SplitLast(c);
    }
  }

  /** Every element of `dropped` has an index, and the indices go up. */
  ghost predicate WithRisingIndices<T>(dropped: seq<T>, at: seq<nat>, c: seq<T>, indices: seq<nat>)
    requires |c| == |indices|
  {
    |at| == |dropped| &&
    (forall k, l :: 0 <= k < l < |at| ==> at[k] < at[l]) &&
    (forall k :: 0 <= k < |at| ==> HasIndex(dropped[k], at[k], c, indices))
  }

  ghost predicate HasIndex<T>(x: T, i: nat, c: seq<T>, indices: seq<nat>)
    requires |c| == |indices|
  {
    exists j :: 0 <= j < |c| && indices[j] == i && c[j] == x
  }

  lemma {:induction false} WithIndexIsOne<T>(c: seq<T>, indices: seq<nat>, i: nat)
    requires |c| == |indices|
    ensures |WithIndex(c, indices, i)| <= 1
    ensures WithIndex(c, indices, i) != [] ==> HasIndex(WithIndex(c, indices, i)[0], i, c, indices)
  {
    if c != [] {
      var m := |c| - 1;
      if indices[m] != i {
        WithIndexIsOne(c[..m], indices[..m], i);
        if WithIndex(c, indices, i) != [] {
          var j :| 0 <= j < m && indices[..m][j] == i && c[..m][j] == WithIndex(c, indices, i)[0];
          assert indices[j] == i && c[j] == WithIndex(c, indices, i)[0];
        }
      }
    }
  }

  /** The order of `drop` is the order of the indices. */
  lemma {:induction false} OrderRises<T>(c: seq<T>, indices: seq<nat>, n: nat) returns (at: seq<nat>)
    requires |c| == |indices|
    ensures WithRisingIndices(InIndexOrder(c, indices, n), at, c, indices)
    ensures forall k :: 0 <= k < |at| ==> at[k] < n
    decreases n
  {
    if n == 0 {
      at := [];
    } else {
      at := OrderRises(c, indices, n - 1);
      WithIndexIsOne(c, indices, n - 1);
      var last := WithIndex(c, indices, n - 1);
      if last == [] {
        assert InIndexOrder(c, indices, n) == InIndexOrder(c, indices, n - 1);
      } else {
        RisesAbove(InIndexOrder(c, indices, n - 1), at, c, indices, last[0], n - 1);
        assert last == [last[0]];
        at := at + [n - 1];
      }
    }
  }

  lemma RisesAbove<T>(dropped: seq<T>, at: seq<nat>, c: seq<T>, indices: seq<nat>, x: T, i: nat)
    requires |c| == |indices| && WithRisingIndices(dropped, at, c, indices)
    requires forall k :: 0 <= k < |at| ==> at[k] < i
    requires HasIndex(x, i, c, indices)
    ensures WithRisingIndices(dropped + [x], at + [i], c, indices)
  {
    var more, above := dropped + [x], at + [i];
    forall k | 0 <= k < |above| ensures HasIndex(more[k], above[k], c, indices) {
      if k < |at| {
        assert HasIndex(dropped[k], at[k], c, indices);
      }
    }
  }

  /** With indices `t`, `t + 1`, ... it is the order of the queue. */
  lemma {:induction false} OrderFromFront<T>(c: seq<T>, indices: seq<nat>, t: nat, n: nat)
    requires |c| == |indices| && forall k :: 0 <= k < |c| ==> indices[k] == t + k
    ensures InIndexOrder(c, indices, n) == if n <= t then [] else if n <= t + |c| then c[..n - t] else c
    decreases n
  {
    if n > 0 {
      OrderFromFront(c, indices, t, n - 1);
      assert Distinct(indices);
      if t < n <= t + |c| {
        WithIndexAt(c, indices, n - 1 - t);
      } else {
        WithoutIndex(c, indices, n - 1);
      }
    }
  }

  lemma SplitLast<T>(c: seq<T>)
    requires c != []
    ensures multiset(c) == multiset(c[..|c| - 1]) + multiset{c[|c| - 1]}
  {
    assert c == c[..|c| - 1] + [c[|c| - 1]];
  }

  lemma {:induction false} NothingInOrder<T>(c: seq<T>, indices: seq<nat>, n: nat)
    requires c == [] && indices == []
    ensures InIndexOrder(c, indices, n) == []
  {
    if n > 0 {
      NothingInOrder(c, indices, n - 1);
    }
  }

  /** The slots of the indices below `i` have been emptied, the others left alone. */
  ghost predicate Swept<T>(ring: Ring, before: seq<Option<T>>, now: seq<Option<T>>, i: nat) {
    |before| == |now| == |ring| &&
    (forall j :: i <= j < |ring| ==> now[ring[j]] == before[ring[j]]) &&
    (forall j :: 0 <= j < i && j < |ring| ==> now[ring[j]] == None)
  }

  lemma SweptHere<T>(ring: Ring, before: seq<Option<T>>, now: seq<Option<T>>, i: nat)
    requires Swept(ring, before, now, i) && i < |ring|
    ensures now[ring[i]] == before[ring[i]]
  {
  }

  lemma SweptStep<T>(ring: Ring, before: seq<Option<T>>, now: seq<Option<T>>, now': seq<Option<T>>, i: nat)
    requires Swept(ring, before, now, i) && i < |ring|
    requires now' == now[ring[i] := None]
    ensures Swept(ring, before, now', i + 1)
  {
  }

  /** The indices of the slots of `n` positions from `tail` on, before they are remapped. */
  function WordIndices(capacity: nat, tail: Word, n: nat): (indices: seq<nat>)
    requires 1 <= capacity
    ensures |indices| == n
  {
    seq<nat>(n, k requires 0 <= k => (tail + k) % WORD % capacity)
  }

  /** Without a turn of the ring or a wrap in between the indices are consecutive. */
  lemma IndicesFromFront(capacity: nat, tail: Word, n: nat)
    requires 1 <= capacity <= WORD / 2 && tail % capacity + n <= capacity
    requires IsPow2(capacity) || tail + n <= WORD
    ensures forall k :: 0 <= k < n ==> WordIndices(capacity, tail, n)[k] == tail % capacity + k
  {
    forall k | 0 <= k < n ensures WordIndices(capacity, tail, n)[k] == tail % capacity + k {
      if IsPow2(capacity) {
        WordModPow2(tail + k, capacity);
      } else {
        ModSmall(tail + k, WORD);
      }
      ModSum(tail, k, capacity);
      ModSmall(tail % capacity + k, capacity);
    }
  }

  lemma IndicesOfSlots(ring: Ring, tail: Word, n: nat)
    requires Distinct(WordSlots(ring, tail, n))
    ensures var indices := WordIndices(|ring|, tail, n);
            Distinct(indices) &&
            forall k :: 0 <= k < n ==> indices[k] < |ring| && WordSlots(ring, tail, n)[k] == ring[indices[k]]
  {
    var live, indices := WordSlots(ring, tail, n), WordIndices(|ring|, tail, n);
    forall k | 0 <= k < n ensures indices[k] < |ring| && live[k] == ring[indices[k]] {
      assert live[k] == Slot(ring, (tail + k) % WORD);
    }
    assert forall i, j :: 0 <= i < j < n && indices[i] == indices[j] ==> live[i] == live[j];
  }

  /** What the slot of index `i` holds. */
  lemma IndexIsLive<T>(
      ring: Ring, live: seq<nat>, indices: seq<nat>, c: seq<T>, states: seq<int>, elements: seq<Option<T>>, i: nat)
    requires SlotsHold(live, c, states, elements) && |states| == |ring| && i < |ring| && |indices| == |live|
    requires Distinct(indices) && forall k :: 0 <= k < |live| ==> indices[k] < |ring| && live[k] == ring[indices[k]]
    ensures elements[ring[i]].Some? <==> states[ring[i]] == FULL
    ensures WithIndex(c, indices, i) == if elements[ring[i]].Some? then [elements[ring[i]].value] else []
  {
    if i in indices {
      var k :| 0 <= k < |indices| && indices[k] == i;
      WithIndexAt(c, indices, k);
      assert live[k] in live;
    } else {
      WithoutIndex(c, indices, i);
      assert ring[i] !in live;
    }
  }

  class AtomicQueue2<T> {
    const common: AtomicQueueCommon
    const states: array<int>
    const elements: array<Option<T>>   // None is uninitialised or moved out
    const capacity: nat
    const shuffleBits: nat
    const masked: bool                 // AtomicQueueB2 masks the index, AtomicQueue2 takes `%`
    const totalOrder: bool
    const spsc: bool

    ghost var contents: seq<T>

    ghost function Layout(): Ring
      requires Shaped()
    {
      RemapRing(capacity, shuffleBits)
    }

    ghost predicate Shaped() {
      1 <= capacity <= WORD / 2 && Shufflable(capacity, shuffleBits) && (masked ==> IsPow2(capacity)) &&
      states.Length == capacity && elements.Length == capacity
    }

    /** The slots of the positions from `tail` to `head`. */
    ghost function Live(): seq<nat>
      requires Shaped()
      reads this, common
    {
      WordSlots(Layout(), common.tail, |contents|)
    }

    ghost predicate Valid()
      reads this, common, states, elements
    {
      Shaped() && |contents| <= capacity && common.head == (common.tail + |contents|) % WORD &&
      SlotsHold(Live(), contents, states[..], elements[..])
    }

    // ---------- Construction ----------

    static method EmptyStates(count: nat) returns (a: array<int>)
      ensures fresh(a) && a.Length == count && forall x :: 0 <= x < count ==> a[x] == EMPTY
    {
      a := new int[count];
      for i := 0 to count
        invariant forall x :: 0 <= x < i ==> a[x] == EMPTY
      {
        a[i] := EMPTY;
      }
    }

    static method UninitElements(count: nat) returns (a: array<Option<T>>)
      ensures fresh(a) && a.Length == count && forall x :: 0 <= x < count ==> a[x] == None
    {
      a := new Option<T>[count](_ => None);
    }

    /** `AtomicQueue2::new` (lines 64-96): rounds up when it minimises contention. */
    constructor (size: Word, minimizeContention: bool, elementsPerCacheLine: nat, totalOrder: bool, spsc: bool)
      requires size <= WORD / 2
      requires minimizeContention || 1 <= size
      ensures Valid() && contents == [] && common.tail == 0 && fresh(common) && fresh(states) && fresh(elements)
      ensures if minimizeContention then LeastPow2AtLeast(size, capacity) else capacity == size
      ensures shuffleBits == IndexShuffleBits(minimizeContention, capacity, elementsPerCacheLine)
      ensures !masked && this.totalOrder == totalOrder && this.spsc == spsc
    {
      var cap: nat := size;
      if minimizeContention {
        cap := RoundUpToPowerOf2(size);
      }
      RoundedFits(size, cap, minimizeContention);
      ShuffleBitsFit(minimizeContention, cap, elementsPerCacheLine);
      var c := new AtomicQueueCommon();
      var s := EmptyStates(cap);
      var e := UninitElements(cap);
      common, states, elements, capacity := c, s, e, cap;
      shuffleBits := IndexShuffleBits(minimizeContention, cap, elementsPerCacheLine);
      masked := false;
      this.totalOrder, this.spsc := totalOrder, spsc;
      contents := [];
    }

    /** `AtomicQueueB2::new` (lines 355-408). */
    constructor B(size: Word, elementsPerCacheLine: nat, totalOrder: bool, spsc: bool)
      requires size <= WORD / 2
      ensures Valid() && contents == [] && common.tail == 0 && fresh(common) && fresh(states) && fresh(elements)
      ensures LeastPow2AtLeast(size, capacity)
      ensures shuffleBits == IndexShuffleBits(true, capacity, elementsPerCacheLine)
      ensures masked && this.totalOrder == totalOrder && this.spsc == spsc
    {
      var cap := RoundUpToPowerOf2(size);
      RoundedFits(size, cap, true);
      ShuffleBitsFit(true, cap, elementsPerCacheLine);
      var c := new AtomicQueueCommon();
      var s := EmptyStates(cap);
      var e := UninitElements(cap);
      common, states, elements, capacity := c, s, e, cap;
      shuffleBits := IndexShuffleBits(true, cap, elementsPerCacheLine);
      masked := true;
      this.totalOrder, this.spsc := totalOrder, spsc;
      contents := [];
    }

    static lemma RoundedFits(size: Word, cap: nat, rounded: bool)
      requires size <= WORD / 2
      requires if rounded then LeastPow2AtLeast(size, cap) else 1 <= size && cap == size
      ensures 1 <= cap <= WORD / 2 && (rounded ==> IsPow2(cap))
    {
      Pow2Word();
      if rounded {
        assert size <= Pow2(63);
        var k: nat :| Pow2(k) == cap;
      }
    }

    // ---------- Slots ----------

    /** Lines 100-105 and 412-419. */
    method GetSlot(index: Word) returns (slot: nat)
      requires Shaped()
      ensures slot == RemapIndex(index % capacity, shuffleBits) == Slot(Layout(), index) < capacity
    {
      RemapIsInvolution(index % capacity, capacity, shuffleBits);
      if masked {
        MaskIsModulo(index, capacity);
        slot := RemapIndex(And(index, capacity - 1), shuffleBits);
      } else {
        slot := RemapIndex(index % capacity, shuffleBits);
      }
    }

    /** One round of the loop of a push (lines 144-172, 458-486): a load, or a compare-and-swap,
        that finds the slot EMPTY lets the push finish; otherwise nothing changes. */
    method TryFill(value: T, slot: nat) returns (ok: bool)
      requires slot < states.Length && slot < elements.Length
      modifies states, elements
      ensures ok <==> old(states[slot]) == EMPTY
      ensures states[..] == if ok then old(states[..])[slot := FULL] else old(states[..])
      ensures elements[..] == if ok then old(elements[..])[slot := Some(value)] else old(elements[..])
    {
      ok := states[slot] == EMPTY;
      if ok {
        if spsc {
          elements[slot] := Some(value);
          states[slot] := FULL;
        } else {
          states[slot] := FULL;
          elements[slot] := Some(value);
        }
      }
    }

    /** One round of the loop of a pop (lines 109-140, 423-454). */
    method TryEmpty(slot: nat) returns (r: Option<T>)
      requires slot < states.Length && slot < elements.Length
      requires states[slot] == FULL ==> elements[slot].Some?
      modifies states, elements
      ensures r == if old(states[slot]) == FULL then old(elements[slot]) else None
      ensures states[..] == if r.Some? then old(states[..])[slot := EMPTY] else old(states[..])
      ensures elements[..] == if r.Some? then old(elements[..])[slot := None] else old(elements[..])
    {
      r := None;
      if states[slot] == FULL {
        if spsc {
          r := elements[slot];
          elements[slot] := None;
          states[slot] := EMPTY;
        } else {
          states[slot] := EMPTY;
          r := elements[slot];
          elements[slot] := None;
        }
      }
    }

    /** Alone, a push whose slot is EMPTY leaves its loop at once. */
    method DoPushAny(value: T, slot: nat)
      requires slot < states.Length && slot < elements.Length && states[slot] == EMPTY
      modifies states, elements
      ensures states[..] == old(states[..])[slot := FULL]
      ensures elements[..] == old(elements[..])[slot := Some(value)]
    {
      var done := false;
      while !done
        invariant !done ==> states[..] == old(states[..]) && elements[..] == old(elements[..])
        invariant done ==> states[..] == old(states[..])[slot := FULL]
        invariant done ==> elements[..] == old(elements[..])[slot := Some(value)]
        decreases !done
      {
        assert states[..][slot] == EMPTY;
        done := TryFill(value, slot);
      }
    }

    /** Alone, a pop whose slot is FULL leaves its loop at once. */
    method DoPopAny(slot: nat) returns (value: T)
      requires slot < states.Length && slot < elements.Length && states[slot] == FULL && elements[slot].Some?
      modifies states, elements
      ensures Some(value) == old(elements[slot])
      ensures states[..] == old(states[..])[slot := EMPTY]
      ensures elements[..] == old(elements[..])[slot := None]
    {
      var found: Option<T> := None;
      while found.None?
        invariant found.None? ==> states[..] == old(states[..]) && elements[..] == old(elements[..])
        invariant found.Some? ==> found == old(elements[slot]) && states[..] == old(states[..])[slot := EMPTY]
        invariant found.Some? ==> elements[..] == old(elements[..])[slot := None]
        decreases found.None?
      {
        assert states[..][slot] == FULL && elements[..][slot] == old(elements[slot]);
        found := TryEmpty(slot);
      }
      value := found.value;
    }

    // ---------- The four calls ----------

    /** The slot of the next position to push to is EMPTY; a push that has claimed that
        position while it is not would wait for ever. */
    ghost predicate HeadIsFree()
      requires Shaped()
      reads this, common, states
    {
      states[Slot(Layout(), common.head)] == EMPTY
    }

    /** Exactly when that is so: not in a full queue; in one with room, always for a
        power-of-two capacity, and otherwise unless the wrap has come between. */
    lemma HeadIsFreeExactly()
      requires Valid()
      ensures HeadIsFree() <==> |contents| < capacity && NextIsFree(capacity, common.tail, |contents|)
    {
      var s := Slot(Layout(), common.head);
      assert states[..][s] == states[s];
      if |contents| < capacity {
        NextIsFreeExactly(Layout(), common.tail, |contents|);
      } else {
        DistinctCovers(Live(), s);
      }
    }

    /** The slot of the next position to pop from is FULL: a pop need not wait. */
    ghost predicate TailIsFull()
      requires Shaped()
      reads this, common, states
    {
      states[Slot(Layout(), common.tail)] == FULL
    }

    lemma TailIsFullExactly()
      requires Valid()
      ensures TailIsFull() <==> contents != []
    {
      assert states[..][Slot(Layout(), common.tail)] == states[Slot(Layout(), common.tail)];
      if contents != [] {
        WordSlotsShrink(Layout(), common.tail, |contents|);
        assert Live()[0] in Live();
      }
    }

    /** A call that claims a position finds the slot of that position ready; otherwise it would
        repeat `TryFill` or `TryEmpty` for ever. */
    ghost predicate FindsReady(op: Op<T>)
      requires Shaped()
      reads this, common, states
    {
      match op
      case TryPush(_) => |contents| < capacity ==> HeadIsFree()
      case Push(_) => HeadIsFree()
      case TryPop => contents != [] ==> TailIsFull()
      case Pop => TailIsFull()
    }

    /** `Returns` is exact. */
    lemma ReturnsExactly(op: Op<T>)
      requires Valid()
      ensures Returns(capacity, common.tail, contents, op) <==> FindsReady(op)
    {
      HeadIsFreeExactly();
      TailIsFullExactly();
    }

    /** The work after a push has claimed the position of the old head. */
    method FinishPush(value: T, head: Word, ghost live: seq<nat>)
      requires Shaped() && states[Slot(Layout(), head)] == EMPTY
      requires SlotsHold(live, contents, states[..], elements[..])
      modifies this, states, elements
      ensures contents == old(contents) + [value]
      ensures SlotsHold(live + [Slot(Layout(), head)], contents, states[..], elements[..])
    {
      var slot := GetSlot(head);
      assert states[..][slot] == EMPTY;
      PushedSlots(live, contents, states[..], elements[..], slot, value);
      DoPushAny(value, slot);
      contents := contents + [value];
    }

    lemma GrownIsValid(live: seq<nat>, head: Word)
      requires Shaped() && live == WordSlots(Layout(), common.tail, |live|) && |live| < capacity
      requires head == (common.tail + |live|) % WORD && common.head == (head + 1) % WORD
      requires SlotsHold(live + [Slot(Layout(), head)], contents, states[..], elements[..])
      ensures Valid()
    {
      var n := |live|;
      WordSlotsGrow(Layout(), common.tail, n);
      assert |contents| == n + 1;
      StepThenCount(common.tail, n);
    }

    method FinishPop(tail: Word, ghost live: seq<nat>) returns (value: T)
      requires Shaped() && contents != [] && live != [] && live[0] == Slot(Layout(), tail)
      requires SlotsHold(live, contents, states[..], elements[..])
      modifies this, states, elements
      ensures [value] + contents == old(contents)
      ensures SlotsHold(live[1..], contents, states[..], elements[..])
    {
      PoppedSlots(live, contents, states[..], elements[..]);
      var slot := GetSlot(tail);
      assert states[..][slot] == FULL && elements[..][slot] == Some(contents[0]);
      value := DoPopAny(slot);
      contents := contents[1..];
    }

    lemma ShrunkIsValid(live: seq<nat>, tail: Word)
      requires Shaped() && live == WordSlots(Layout(), tail, |live|) && 1 <= |live| <= capacity
      requires common.tail == (tail + 1) % WORD && common.head == (tail + |live|) % WORD
      requires SlotsHold(live[1..], contents, states[..], elements[..])
      ensures Valid()
    {
      WordSlotsShrink(Layout(), tail, |live|);
      var n := |contents|;
      assert |live| == n + 1;
      StepThenCount(tail, n);
    }

    /** The step of a counter that a `try_` call takes: a compare-and-swap with TOTAL_ORDER, a
        fetch-and-add without.  Alone, it always succeeds. */
    method ClaimHead(head: Word) returns (ok: bool)
      requires common.head == head
      modifies common
      ensures ok && common.head == (head + 1) % WORD && common.tail == old(common.tail)
    {
      if totalOrder {
        if common.head != head {
          return false;
        }
        common.head := (head + 1) % WORD;
      } else {
        common.head := (common.head + 1) % WORD;
      }
      ok := true;
    }

    method ClaimTail(tail: Word) returns (ok: bool)
      requires common.tail == tail
      modifies common
      ensures ok && common.tail == (tail + 1) % WORD && common.head == old(common.head)
    {
      if totalOrder {
        if common.tail != tail {
          return false;
        }
        common.tail := (tail + 1) % WORD;
      } else {
        common.tail := (common.tail + 1) % WORD;
      }
      ok := true;
    }

    static lemma CountersMeasure(head: Word, tail: Word, n: nat)
      requires n < WORD && head == (tail + n) % WORD
      ensures (head - tail) % WORD == n && (head == tail <==> n == 0)
    {
      WrappedDistance(tail, n);
    }

    /** Lines 204-229 and 522-547: false exactly when full. */
    method TryPush(value: T) returns (ok: bool)
      requires Valid() && FindsReady(Op.TryPush(value))
      modifies this, common, states, elements
      ensures Valid() && common.tail == old(common.tail)
      ensures ok <==> |old(contents)| < capacity
      ensures contents == if ok then old(contents) + [value] else old(contents)
    {
      CountersMeasure(common.head, common.tail, |contents|);
      ghost var live := Live();
      var head := common.head;
      var size := (head - common.tail) % WORD;
      if size >= capacity {
        return false;
      }
      var claimed := ClaimHead(head);
      if !claimed {
        return false;
      }
      FinishPush(value, head, live);
      GrownIsValid(live, head);
      ok := true;
    }

    /** Lines 231-257 and 549-575: nothing exactly when empty. */
    method TryPop() returns (r: Option<T>)
      requires Valid()
      modifies this, common, states, elements
      ensures Valid()
      ensures r.None? <==> old(contents) == []
      ensures r.None? ==> contents == [] && common.tail == old(common.tail)
      ensures r.Some? ==> [r.value] + contents == old(contents) && common.tail == (old(common.tail) + 1) % WORD
    {
      CountersMeasure(common.head, common.tail, |contents|);
      ghost var live := Live();
      var tail := common.tail;
      if tail == common.head {
        return None;
      }
      var claimed := ClaimTail(tail);
      if !claimed {
        return None;
      }
      WordSlotsShrink(Layout(), tail, |contents|);
      var value := FinishPop(tail, live);
      ShrunkIsValid(live, tail);
      r := Some(value);
    }

    /** Lines 259-272 and 577-590.  On a full queue a push alone would spin for ever. */
    method Push(value: T)
      requires Valid() && FindsReady(Op.Push(value))
      modifies this, common, states, elements
      ensures Valid() && common.tail == old(common.tail) && contents == old(contents) + [value]
    {
      HeadIsFreeExactly();
      ghost var live := Live();
      var head := common.head;
      common.head := (common.head + 1) % WORD;
      FinishPush(value, head, live);
      GrownIsValid(live, head);
    }

    /** Lines 274-287 and 592-605.  On an empty queue a pop alone would spin for ever. */
    method Pop() returns (value: T)
      requires Valid() && contents != []
      modifies this, common, states, elements
      ensures Valid() && common.tail == (old(common.tail) + 1) % WORD && [value] + contents == old(contents)
    {
      ghost var live := Live();
      var tail := common.tail;
      common.tail := (common.tail + 1) % WORD;
      WordSlotsShrink(Layout(), tail, |contents|);
      value := FinishPop(tail, live);
      ShrunkIsValid(live, tail);
    }

    /** The size reports are exact when nothing else runs. */
    method Report() returns (size: nat, isEmpty: bool, isFull: bool)
      requires Valid()
      ensures size == |contents| && (isEmpty <==> contents == []) && (isFull <==> |contents| == capacity)
    {
      CountersMeasure(common.head, common.tail, |contents|);
      size, isEmpty, isFull := common.WasSize(), common.WasEmpty(), common.WasFull(capacity);
    }

    /** The elements neither go round the ring nor, unless that is harmless, over the wrap. */
    ghost predicate FromFront()
      requires 1 <= capacity
      reads this, common
    {
      common.tail % capacity + |contents| <= capacity && (IsPow2(capacity) || common.tail + |contents| <= WORD)
    }

    /** Lines 182-194 and 492-516: visits every slot once, through the remap, and drops exactly
        the live elements, in the order of their indices. */
    method Drop() returns (dropped: seq<T>)
      requires Valid()
      modifies elements
      ensures dropped == InIndexOrder(contents, WordIndices(capacity, common.tail, |contents|), capacity)
      ensures exists at :: WithRisingIndices(dropped, at, contents, WordIndices(capacity, common.tail, |contents|))
      ensures multiset(dropped) == multiset(contents)
      ensures FromFront() ==> dropped == contents
      ensures forall x :: 0 <= x < capacity ==> elements[x] == None
    {
      ghost var before := elements[..];
      ghost var indices := WordIndices(capacity, common.tail, |contents|);
      IndicesOfSlots(Layout(), common.tail, |contents|);
      dropped := DropLoop(Live(), indices, before);
      AllSwept(before);
      DropOrder(indices);
    }

    /** What the loop has dropped by its end, and in which order. */
    lemma DropOrder(indices: seq<nat>)
      requires Shaped() && indices == WordIndices(capacity, common.tail, |contents|)
      requires Distinct(indices) && forall k :: 0 <= k < |indices| ==> indices[k] < capacity
      ensures var dropped := InIndexOrder(contents, indices, capacity);
              (exists at :: WithRisingIndices(dropped, at, contents, indices)) &&
              multiset(dropped) == multiset(contents) && (FromFront() ==> dropped == contents)
    {
      var at := OrderRises(contents, indices, capacity);
      OrderKeepsAll(contents, indices, capacity);
      if FromFront() {
        IndicesFromFront(capacity, common.tail, |contents|);
        OrderFromFront(contents, indices, common.tail % capacity, capacity);
      }
    }

    ghost predicate IndicesFit(live: seq<nat>, indices: seq<nat>)
      requires Shaped()
    {
      |indices| == |live| && Distinct(indices) &&
      forall k :: 0 <= k < |live| ==> indices[k] < capacity && live[k] == Layout()[indices[k]]
    }

    method DropLoop(ghost live: seq<nat>, ghost indices: seq<nat>, ghost before: seq<Option<T>>)
        returns (dropped: seq<T>)
      requires Shaped() && IndicesFit(live, indices) && before == elements[..]
      requires SlotsHold(live, contents, states[..], before)
      modifies elements
      ensures Swept(Layout(), before, elements[..], capacity)
      ensures dropped == InIndexOrder(contents, indices, capacity)
    {
      dropped := [];
      for i := 0 to capacity
        invariant dropped == InIndexOrder(contents, indices, i)
        invariant Swept(Layout(), before, elements[..], i)
      {
        var found := DropRound(i, live, indices, before);
        dropped := dropped + found;
      }
    }

    lemma AllSwept(before: seq<Option<T>>)
      requires Shaped() && Swept(Layout(), before, elements[..], capacity)
      ensures forall x :: 0 <= x < capacity ==> elements[x] == None
    {
      forall x | 0 <= x < capacity ensures elements[x] == None {
        RemapIsInvolution(x, capacity, shuffleBits);
        assert elements[..][Layout()[RemapIndex(x, shuffleBits)]] == None;
      }
    }

    method DropRound(i: nat, ghost live: seq<nat>, ghost indices: seq<nat>, ghost before: seq<Option<T>>)
        returns (found: seq<T>)
      requires Shaped() && i < capacity && IndicesFit(live, indices)
      requires SlotsHold(live, contents, states[..], before) && Swept(Layout(), before, elements[..], i)
      modifies elements
      ensures Swept(Layout(), before, elements[..], i + 1)
      ensures found == WithIndex(contents, indices, i)
    {
      ghost var now := elements[..];
      IndexIsLive(Layout(), live, indices, contents, states[..], before, i);
      SweptHere(Layout(), before, now, i);
      found := DropIndex(i);
      SweptStep(Layout(), before, now, elements[..], i);
    }

    /** One round of the loop of `drop`. */
    method DropIndex(i: nat) returns (found: seq<T>)
      requires Shaped() && i < capacity
      requires elements[Layout()[i]].Some? <==> states[Layout()[i]] == FULL
      modifies elements
      ensures elements[..] == old(elements[..])[Layout()[i] := None]
      ensures found == if old(elements[Layout()[i]]).Some? then [old(elements[Layout()[i]]).value] else []
    {
      var index := i;
      if masked {
        MaskIsModulo(i, capacity);
        ModSmall(i, capacity);
        index := And(i, capacity - 1);
      }
      var slot := RemapIndex(index, shuffleBits);
      assert slot == Layout()[i];
      found := [];
      if states[slot] == FULL {
        found := [elements[slot].value];
        elements[slot] := None;
      }
    }

    // ---------- Whole histories ----------

    method PerformPush(op: Op<T>) returns (reply: Reply<T>)
      requires Valid() && Returns(capacity, common.tail, contents, op) && Pushes(op)
      modifies this, common, states, elements
      ensures Valid() && common.tail == old(common.tail)
      ensures reply == ReplyTo(capacity, old(contents), op) && contents == After(capacity, old(contents), op)
    {
      ReturnsExactly(op);
      if op.TryPush? {
        var ok := TryPush(op.x);
        reply := if ok then Accepted else Refused;
      } else {
        Push(op.x);
        reply := Accepted;
      }
    }

    method PerformPop(op: Op<T>) returns (reply: Reply<T>)
      requires Valid() && Returns(capacity, common.tail, contents, op) && !Pushes(op)
      modifies this, common, states, elements
      ensures Valid() && common.tail == if old(contents) == [] then old(common.tail) else (old(common.tail) + 1) % WORD
      ensures reply == ReplyTo(capacity, old(contents), op) && contents == After(capacity, old(contents), op)
    {
      if op.TryPop? {
        var r := TryPop();
        reply := if r.None? then Nothing else Got(r.value);
      } else {
        var x := Pop();
        reply := Got(x);
      }
    }

    /** One call of a history. */
    method Perform(op: Op<T>) returns (reply: Reply<T>)
      requires Valid() && Returns(capacity, common.tail, contents, op)
      modifies this, common, states, elements
      ensures Valid()
      ensures reply == ReplyTo(capacity, old(contents), op) && contents == After(capacity, old(contents), op)
      ensures common.tail == TailAfter(old(common.tail), old(contents), op)
    {
      if Pushes(op) {
        reply := PerformPush(op);
      } else {
        reply := PerformPop(op);
      }
    }

    /** Every history whose calls return gets the answers of a bounded FIFO, for every capacity
        and every shuffle width; neither the remap nor the 64-bit wrap shows. */
    method Replay(ops: seq<Op<T>>) returns (replies: seq<Reply<T>>)
      requires Valid() && AllReturn(capacity, common.tail, contents, ops)
      modifies this, common, states, elements
      decreases |ops|
      ensures Valid()
      ensures replies == Replies(capacity, old(contents), ops)
      ensures contents == Final(capacity, old(contents), ops)
    {
      if ops == [] {
        replies := [];
      } else {
        var reply := Perform(ops[0]);
        var rest := Replay(ops[1..]);
        replies := [reply] + rest;
      }
    }

    /** From empty through any history to `drop`: what was pushed is what was popped, in
        the same order, followed by what was left, and `drop` drops exactly that. */
    method Lifetime(ops: seq<Op<T>>) returns (replies: seq<Reply<T>>, dropped: seq<T>)
      requires Valid() && contents == [] && AllReturn(capacity, common.tail, [], ops)
      modifies this, common, states, elements
      ensures |replies| == |ops| && Out(replies) <= In(ops, replies)
      ensures multiset(In(ops, replies)) == multiset(Out(replies)) + multiset(dropped)
    {
      ReturningIsAllowed(capacity, common.tail, contents, ops);
      replies := Replay(ops);
      Conservation(capacity, [], ops);
      assert [] + In(ops, replies) == In(ops, replies);
      dropped := Drop();
    }
  }

  /** The objects a queue owns. */
  ghost function Footprint<T>(q: AtomicQueue2<T>): set<object> {
    {q, q.common, q.states, q.elements}
  }

  /** Two queues that differ only in their slot layout, masking, compare-and-swap or hand-off
      mode answer every history alike: remapping is invisible. */
  method SameAnswers<T>(q: AtomicQueue2<T>, r: AtomicQueue2<T>, ops: seq<Op<T>>)
      returns (qs: seq<Reply<T>>, rs: seq<Reply<T>>)
    requires q.Valid() && r.Valid() && Footprint(q) !! Footprint(r)
    requires q.capacity == r.capacity && q.contents == r.contents
    requires AllReturn(q.capacity, q.common.tail, q.contents, ops)
    requires AllReturn(r.capacity, r.common.tail, r.contents, ops)
    modifies Footprint(q), Footprint(r)
    ensures q.Valid() && r.Valid() && qs == rs && q.contents == r.contents
  {
    qs := q.Replay(ops);
    rs := r.Replay(ops);
  }
}
