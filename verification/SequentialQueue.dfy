/** AtomicQueue and AtomicQueueB run one call at a time (src/atomic_queue.rs), with their
    array, loops and 64-bit counters, proved to be a bounded FIFO.

    Zero is the mark of an empty slot.  A pop that finds one repeats its round for ever;
    the pops here say where a pop stands after any number of rounds. */
module SequentialQueue {
  import opened Arch
  import opened Ring
  import opened Common
  import opened Fifo

  const ZERO := 0

  /** The slots of the positions `base`, `base + 1`, ... hold `contents`, all others are zero. */
  ghost predicate SlotsHold(ring: Ring, base: nat, contents: seq<int>, elements: seq<int>) {
    |elements| == |ring| && |contents| <= |ring| &&
    (forall x :: 0 <= x < |ring| ==> InWindow(ring, base, base + |contents|, x) || elements[x] == ZERO) &&
    (forall k :: 0 <= k < |contents| ==> elements[Slot(ring, base + k)] == contents[k])
  }

  lemma PushedSlots(ring: Ring, base: nat, c: seq<int>, elements: seq<int>, v: int)
    requires SlotsHold(ring, base, c, elements) && |c| < |ring|
    ensures SlotsHold(ring, base, c + [v], elements[Slot(ring, base + |c|) := v])
  {
    var n := |c|;
    var s := Slot(ring, base + n);
    var elements' := elements[s := v];
    forall x | 0 <= x < |ring|
      ensures InWindow(ring, base, base + |c + [v]|, x) || elements'[x] == ZERO
    {
      WindowGrows(ring, base, base + n, x);
    }
    forall k | 0 <= k < n + 1 ensures elements'[Slot(ring, base + k)] == (c + [v])[k] {
      if k < n {
        SlotsDiffer(ring, base + k, base + n);
      }
    }
  }

  lemma PoppedSlots(ring: Ring, base: nat, c: seq<int>, elements: seq<int>)
    requires SlotsHold(ring, base, c, elements) && c != []
    ensures elements[Slot(ring, base)] == c[0]
    ensures SlotsHold(ring, base + 1, c[1..], elements[Slot(ring, base) := ZERO])
  {
    var s := Slot(ring, base);
    assert elements[Slot(ring, base + 0)] == c[0];
    var elements' := elements[s := ZERO];
    forall x | 0 <= x < |ring|
      ensures InWindow(ring, base + 1, base + 1 + |c[1..]|, x) || elements'[x] == ZERO
    {
      WindowShrinks(ring, base, base + |c|, x);
    }
    forall k | 0 <= k < |c| - 1 ensures elements'[Slot(ring, base + 1 + k)] == c[1..][k] {
      assert elements[Slot(ring, base + (k + 1))] == c[k + 1];
      SlotsDiffer(ring, base + 1 + k, base);
    }
  }

  /** One more element than before: the counters show it, and they differ from what they were. */
  lemma OverfullSize(base: nat, n: nat)
    requires n <= WORD / 2
    ensures ((base + n + 1) % WORD - base % WORD) % WORD == n + 1
    ensures (base + n + 1) % WORD != (base + n) % WORD
  {
    WrappedDistance(base, n + 1);
    WrappedDistance(base + n, 1);
  }

  /** With the tail one ahead, the size reads as huge. */
  lemma OvertakenSize(head: nat)
    requires head < WORD
    ensures (head - (head + 1) % WORD) % WORD == WORD - 1 && (head + 1) % WORD != head
  {
  }

  // ---------- Histories in which every call returns ----------

  /** Where a pop stands: it found nothing, it has its element, or it is still in its loop. */
  datatype Outcome = Empty | Taken(x: int) | StillWaiting

  /** A blocking call has no one to wait for, and a pop does not meet a zero. */
  predicate Returns(capacity: nat, c: seq<int>, op: Op<int>) {
    Allowed(capacity, c, op) && (!Pushes(op) && c != [] ==> c[0] != ZERO)
  }

  predicate AllReturn(capacity: nat, c: seq<int>, ops: seq<Op<int>>)
    decreases |ops|
  {
    ops != [] ==> Returns(capacity, c, ops[0]) && AllReturn(capacity, After(capacity, c, ops[0]), ops[1..])
  }

  lemma OutSplits(capacity: nat, c: seq<int>, ops: seq<Op<int>>)
    requires ops != []
    ensures Out(Replies(capacity, c, ops)) ==
            OutOne(ReplyTo(capacity, c, ops[0])) + Out(Replies(capacity, After(capacity, c, ops[0]), ops[1..]))
  {
    assert Replies(capacity, c, ops)[1..] == Replies(capacity, After(capacity, c, ops[0]), ops[1..]);
  }

  /** All calls return exactly when the queue's answers never include a zero ... */
  lemma {:induction false} AllReturnExactlyWithoutZero(capacity: nat, c: seq<int>, ops: seq<Op<int>>)
    requires AllAllowed(capacity, c, ops)
    ensures AllReturn(capacity, c, ops) <==> ZERO !in Out(Replies(capacity, c, ops))
    decreases |ops|
  {
    if ops != [] {
      OutSplits(capacity, c, ops);
      AllReturnExactlyWithoutZero(capacity, After(capacity, c, ops[0]), ops[1..]);
    }
  }

  /** ... which is so whenever no zero is in it or pushed. */
  lemma NonZeroReturn(capacity: nat, c: seq<int>, ops: seq<Op<int>>)
    requires AllAllowed(capacity, c, ops) && |c| <= capacity
    requires ZERO !in c && ZERO !in In(ops, Replies(capacity, c, ops))
    ensures AllReturn(capacity, c, ops)
  {
    var out, rest := Out(Replies(capacity, c, ops)), Final(capacity, c, ops);
    Conservation(capacity, c, ops);
    assert forall x <- out :: x in out + rest;
    assert ZERO !in c + In(ops, Replies(capacity, c, ops));
    AllReturnExactlyWithoutZero(capacity, c, ops);
  }

  class AtomicQueue {
    const common: AtomicQueueCommon
    const elements: array<int>
    const capacity: nat

    ghost var contents: seq<int>
    ghost var base: nat          // the position of contents[0], never wrapped

    ghost predicate Shaped() {
      1 <= capacity <= WORD / 2 && IsPow2(capacity) && elements.Length == capacity
    }

    ghost function Layout(): Ring
      requires Shaped()
    {
      RemapRing(capacity, 0)
    }

    ghost predicate Valid()
      reads this, common, elements
    {
      Shaped() && |contents| <= capacity &&
      common.tail == base % WORD && common.head == (base + |contents|) % WORD &&
      SlotsHold(Layout(), base, contents, elements[..])
    }

    static method ZeroElements(count: nat) returns (a: array<int>)
      ensures fresh(a) && a.Length == count && forall x :: 0 <= x < count ==> a[x] == ZERO
    {
      a := new int[count];
      for i := 0 to count
        invariant forall x :: 0 <= x < i ==> a[x] == ZERO
      {
        a[i] := ZERO;
      }
    }

    static lemma RoundedFits(size: Word, cap: nat)
      requires size <= WORD / 2 && LeastPow2AtLeast(size, cap)
      ensures 1 <= cap <= WORD / 2 && IsPow2(cap)
    {
      Pow2Word();
      assert size <= Pow2(63);
      var k: nat :| Pow2(k) == cap;
    }

    /** `AtomicQueue::new` (lines 92-107). */
    constructor (size: Word)
      requires size <= WORD / 2
      ensures Valid() && contents == [] && fresh(common) && fresh(elements)
      ensures LeastPow2AtLeast(size, capacity)
    {
      var cap := RoundUpToPowerOf2(size);
      RoundedFits(size, cap);
      var c := new AtomicQueueCommon();
      var e := ZeroElements(cap);
      common, elements, capacity := c, e, cap;
      contents, base := [], 0;
    }

    /** `AtomicQueueB::new` (lines 246-273): at least two slots. */
    constructor B(size: Word)
      requires size <= WORD / 2
      ensures Valid() && contents == [] && fresh(common) && fresh(elements)
      ensures LeastPow2AtLeast(if size < 2 then 2 else size, capacity) && 2 <= capacity
    {
      var cap := RoundUpToPowerOf2(if size < 2 then 2 else size);
      RoundedFits(if size < 2 then 2 else size, cap);
      var c := new AtomicQueueCommon();
      var e := ZeroElements(cap);
      common, elements, capacity := c, e, cap;
      contents, base := [], 0;
    }

    /** Lines 111-114 and 277-284. */
    method GetElement(index: Word, ghost p: nat) returns (slot: nat)
      requires Shaped() && index == p % WORD
      ensures slot == Slot(Layout(), p) < elements.Length
    {
      MaskIsModulo(index, capacity);
      WordModPow2(p, capacity);
      slot := And(index, capacity - 1);
    }

    /** One round of the waiting loop (lines 158-169, 188-199): an element that is there is taken
        and its slot zeroed; a zero changes nothing, so alone the loop would never end. */
    method PollElement(slot: nat) returns (current: int)
      requires slot < elements.Length
      modifies elements
      ensures current == old(elements[slot])
      ensures elements[..] == if current == ZERO then old(elements[..]) else old(elements[..])[slot := ZERO]
    {
      current := elements[slot];
      if current != ZERO {
        elements[slot] := ZERO;
      }
    }

    /** The first `rounds` rounds of the loop, or as many as it takes: after one the wait is over
        if the element is there, and it is not over after any number if it is zero. */
    method TakeElement(slot: nat, rounds: nat) returns (current: int)
      requires slot < elements.Length
      modifies elements
      ensures current == if rounds == 0 then ZERO else old(elements[slot])
      ensures elements[..] == if current == ZERO then old(elements[..]) else old(elements[..])[slot := ZERO]
    {
      current := ZERO;
      var round := 0;
      while current == ZERO && round < rounds
        invariant current == ZERO ==> elements[..] == old(elements[..])
        invariant current != ZERO ==> elements[..] == old(elements[..])[slot := ZERO]
        invariant round <= rounds && current == if round == 0 then ZERO else old(elements[slot])
        invariant current != ZERO ==> 0 < round
      {
        assert elements[..][slot] == old(elements[..])[slot];
        current := PollElement(slot);
        round := round + 1;
      }
    }

    /** The store of a push that has claimed the position of the old head, whatever is in its slot. */
    method StoreClaimed(element: int, head: Word)
      requires Shaped() && |contents| <= capacity && head == (base + |contents|) % WORD
      requires common.tail == base % WORD && common.head == (base + |contents| + 1) % WORD
      requires SlotsHold(Layout(), base, contents, elements[..])
      modifies this, elements
      ensures base == old(base)
      ensures |old(contents)| < capacity ==> Valid() && contents == old(contents) + [element]
      ensures |old(contents)| == capacity ==> contents == old(contents)
      ensures |old(contents)| == capacity ==> elements[..] == old(elements[..])[Slot(Layout(), base) := element]
    {
      ghost var room := |contents| < capacity;
      if room {
        PushedSlots(Layout(), base, contents, elements[..], element);
      } else {
        SlotRepeats(Layout(), base);
      }
      var slot := GetElement(head, base + |contents|);
      elements[slot] := element;
      if room {
        contents := contents + [element];
      }
    }

    /** A pop that has claimed takes the first element, unless it is zero or not there. */
    ghost predicate Takes(rounds: nat)
      reads this
    {
      0 < rounds && contents != [] && contents[0] != ZERO
    }

    /** The state of a pop that has claimed and waits. */
    twostate predicate Waits()
      reads this, common, elements
    {
      contents == old(contents) && base == old(base) && elements[..] == old(elements[..]) &&
      common.head == old(common.head) && common.tail == (old(common.tail) + 1) % WORD
    }

    /** What a pop finds, and what it leaves. */
    lemma FoundFirst(slot: nat)
      requires Shaped() && SlotsHold(Layout(), base, contents, elements[..]) && slot == Slot(Layout(), base)
      ensures elements[slot] == if contents == [] then ZERO else contents[0]
      ensures contents != [] ==> SlotsHold(Layout(), base + 1, contents[1..], elements[..][slot := ZERO])
    {
      assert elements[..][slot] == elements[slot];
      if contents != [] {
        PoppedSlots(Layout(), base, contents, elements[..]);
      }
    }

    method FinishPop(tail: Word, rounds: nat) returns (r: Outcome)
      requires Shaped() && |contents| <= capacity && tail == base % WORD
      requires common.tail == (base + 1) % WORD && common.head == (base + |contents|) % WORD
      requires SlotsHold(Layout(), base, contents, elements[..])
      modifies this, elements
      ensures r.Taken? <==> old(Takes(rounds))
      ensures r.Taken? ==> Valid() && [r.x] + contents == old(contents) && base == old(base) + 1
      ensures !r.Taken? ==> r == StillWaiting && contents == old(contents) && base == old(base)
      ensures !r.Taken? ==> elements[..] == old(elements[..])
    {
      ghost var ring, front := Layout(), base + |contents|;
      var slot := GetElement(tail, base);
      FoundFirst(slot);
      var current := TakeElement(slot, rounds);
      if current == ZERO {
        r := StillWaiting;
      } else {
        r := Taken(current);
        contents, base := contents[1..], base + 1;
        assert base + |contents| == front;
        assert SlotsHold(ring, base, contents, elements[..]);
      }
    }

    /** Lines 118-138 and 304-323: false exactly when full. */
    method TryPush(element: int) returns (ok: bool)
      requires Valid()
      modifies this, common, elements
      ensures Valid() && base == old(base)
      ensures ok <==> |old(contents)| < capacity
      ensures contents == if ok then old(contents) + [element] else old(contents)
    {
      WrappedDistance(base, |contents|);
      WrappedNext(base + |contents|);
      var head := common.head;
      var tail := common.tail;
      if (head - tail) % WORD >= capacity {
        return false;
      }
      if common.head != head {
        return false;
      }
      common.head := (head + 1) % WORD;
      StoreClaimed(element, head);
      ok := true;
    }

    /** Lines 139-170 and 325-356, up to the given round of the waiting loop: nothing exactly
        when empty; otherwise the first element after one round, unless it is zero: then the
        call has claimed its position and waits, however many rounds it has made. */
    method TryPop(rounds: nat) returns (r: Outcome)
      requires Valid()
      modifies this, common, elements
      ensures r.Empty? <==> old(contents) == []
      ensures r.Taken? <==> old(Takes(rounds))
      ensures r.Empty? ==> Valid() && contents == [] && base == old(base)
      ensures r.Taken? ==> Valid() && [r.x] + contents == old(contents) && base == old(base) + 1
      ensures r.StillWaiting? ==> Waits()
    {
      WrappedDistance(base, |contents|);
      WrappedNext(base);
      var tail := common.tail;
      var head := common.head;
      if tail == head {
        return Empty;
      }
      if common.tail != tail {
        return Empty;
      }
      common.tail := (tail + 1) % WORD;
      r := FinishPop(tail, rounds);
    }

    /** Lines 172-179 and 358-365.  A push never looks at the slot.  It is a FIFO push exactly
        when the queue is not full; on a full queue, instead of waiting, it overwrites the
        oldest element and the size exceeds the capacity. */
    method Push(element: int)
      requires Valid()
      modifies this, common, elements
      ensures Valid() <==> |old(contents)| < capacity
      ensures base == old(base) && common.tail == old(common.tail)
      ensures |old(contents)| < capacity ==> contents == old(contents) + [element]
      ensures |old(contents)| == capacity ==> contents == old(contents) && common.WasSize() == capacity + 1
      ensures |old(contents)| == capacity ==> !common.WasFull(capacity)
      ensures |old(contents)| == capacity ==> elements[..] == old(elements[..])[Slot(Layout(), base) := element]
    {
      ghost var n := |contents|;
      WrappedNext(base + n);
      OverfullSize(base, n);
      var head := common.head;
      common.head := (common.head + 1) % WORD;
      assert common.head == (base + n + 1) % WORD && common.WasSize() == n + 1;
      assert n == capacity ==> !common.WasFull(capacity);
      StoreClaimed(element, head);
    }

    /** Lines 181-200 and 367-386, up to the given round of the waiting loop.  On an empty queue
        the call claims all the same, and waits. */
    method Pop(rounds: nat) returns (r: Outcome)
      requires Valid()
      modifies this, common, elements
      ensures !r.Empty? && (r.Taken? <==> old(Takes(rounds)))
      ensures r.Taken? ==> Valid() && [r.x] + contents == old(contents) && base == old(base) + 1
      ensures r.StillWaiting? ==> Waits()
      ensures old(contents) == [] ==> common.WasSize() == WORD - 1 && !common.WasEmpty() && !common.WasFull(capacity)
    {
      WrappedNext(base);
      OvertakenSize(base % WORD);
      var tail := common.tail;
      common.tail := (common.tail + 1) % WORD;
      r := FinishPop(tail, rounds);
    }

    /** Lines 206-216: the size reports are exact when nothing else runs. */
    method Report() returns (size: nat, isEmpty: bool, isFull: bool)
      requires Valid()
      ensures size == |contents| && (isEmpty <==> contents == []) && (isFull <==> |contents| == capacity)
    {
      WrappedDistance(base, |contents|);
      size, isEmpty, isFull := common.WasSize(), common.WasEmpty(), common.WasFull(capacity);
    }

    // ---------- Whole histories ----------

    method PerformPop(op: Op<int>) returns (reply: Reply<int>)
      requires Valid() && Returns(capacity, contents, op) && !Pushes(op)
      modifies this, common, elements
      ensures Valid()
      ensures reply == ReplyTo(capacity, old(contents), op) && contents == After(capacity, old(contents), op)
    {
      var r: Outcome;
      if op.TryPop? {
        r := TryPop(1);
      } else {
        r := Pop(1);
      }
      reply := if r.Empty? then Nothing else Got(r.x);
    }

    /** One call of a history. */
    method Perform(op: Op<int>) returns (reply: Reply<int>)
      requires Valid() && Returns(capacity, contents, op)
      modifies this, common, elements
      ensures Valid()
      ensures reply == ReplyTo(capacity, old(contents), op) && contents == After(capacity, old(contents), op)
    {
      match op
      case TryPush(x) =>
        var ok := TryPush(x);
        reply := if ok then Accepted else Refused;
      case Push(x) =>
        Push(x);
        reply := Accepted;
      case _ =>
        reply := PerformPop(op);
    }

    /** Every history whose calls return gets the answers of a bounded FIFO, across any number of
        wraps of the counters. */
    method Replay(ops: seq<Op<int>>) returns (replies: seq<Reply<int>>)
      requires Valid() && AllReturn(capacity, contents, ops)
      modifies this, common, elements
      decreases |ops|
      ensures Valid()
      ensures replies == Replies(capacity, old(contents), ops)
      ensures contents == Final(capacity, old(contents), ops)
    {
      if ops == [] {
        replies := [];
      } else {
        var reply := Perform(ops[0]);
        var rest := Replay(ops[1..]);
        replies := [reply] + rest;
      }
    }

    /** From empty through any history of elements that are not zero: what was pushed is what
        was popped, in the same order, followed by what is left. */
    method Deliver(ops: seq<Op<int>>) returns (replies: seq<Reply<int>>)
      requires Valid() && contents == [] && AllAllowed(capacity, [], ops)
      requires forall op <- ops :: Pushes(op) ==> op.x != ZERO
      modifies this, common, elements
      ensures Valid() && |replies| == |ops|
      ensures In(ops, replies) == Out(replies) + contents
    {
      OnlyPushedGoesIn(ops, Replies(capacity, [], ops));
      NonZeroReturn(capacity, [], ops);
      replies := Replay(ops);
      Conservation(capacity, [], ops);
      assert [] + In(ops, replies) == In(ops, replies);
    }
  }

  lemma {:induction false} OnlyPushedGoesIn(ops: seq<Op<int>>, replies: seq<Reply<int>>)
    requires |ops| == |replies|
    requires forall op <- ops :: Pushes(op) ==> op.x != ZERO
    ensures ZERO !in In(ops, replies)
  {
    if ops != [] {
      OnlyPushedGoesIn(ops[1..], replies[1..]);
    }
  }
}
