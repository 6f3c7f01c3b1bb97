/** How threads claim positions: the loads, compare-and-swaps and fetch-and-adds
    on `head` and `tail` that AtomicQueue (src/atomic_queue.rs:118-183) and
    AtomicQueue2 with TOTAL_ORDER (src/atomic_queue2.rs:204-287) share.

    A step is one atomic access of one thread; a trace is any sequence of steps of
    any number of threads with the states between them, so every result about
    traces speaks of every interleaving.  Memory is sequentially consistent and a
    compare-and-swap fails only when the value differs.  Counters are unbounded; the
    64-bit subtraction `head - tail` with `tail` ahead of `head` compares as huge,
    hence as full (`LooksFullOnWords`).
 */
module Claiming {
  import opened Arch
  import opened Options

  datatype Call<V> = Push(v: V) | TryPush(v: V) | Pop | TryPop

  /** Where a thread is inside its current call. */
  datatype Pc<V> =
    | Idle
    // try_push: head loaded; then tail loaded
    | PushSawHead(v: V, h: nat)
    | PushSawBoth(v: V, h: nat, t: nat)
    // a push that owns position `ticket`; `Writing` is AtomicQueue2's gap
    // between flipping the slot state and writing the element
    | Pushing(v: V, ticket: nat)
    | Writing(v: V, ticket: nat)
    // try_pop: tail loaded; then head loaded
    | PopSawTail(t: nat)
    | PopSawBoth(t: nat, h: nat)
    // a pop that owns position `ticket`; `Reading` is AtomicQueue2's gap between
    // flipping the state and reading, `Took` AtomicQueue's between load and zeroing
    | Popping(ticket: nat)
    | Reading(ticket: nat)
    | Took(ticket: nat, taken: V)

  predicate Claimed<V>(pc: Pc<V>) {
    pc.Pushing? || pc.Writing? || pc.Popping? || pc.Reading? || pc.Took?
  }

  predicate Pushes<V>(pc: Pc<V>) {
    pc.PushSawHead? || pc.PushSawBoth? || pc.Pushing? || pc.Writing?
  }

  datatype Claims<V> = Claims(capacity: nat, head: nat, tail: nat, pcs: seq<Pc<V>>)

  datatype Action<V> =
    | Begin(thread: nat, call: Call<V>)
    | Advance(thread: nat)

  function Init<V>(capacity: nat, threads: nat): Claims<V> {
    Claims(capacity, 0, 0, seq(threads, _ => Idle))
  }

  /** Thread `i` goes on inside its call, or returns from it. */
  function Move<V>(c: Claims<V>, i: nat, pc: Pc<V>): Claims<V>
    requires i < |c.pcs|
  {
    c.(pcs := c.pcs[i := pc])
  }

  /** `head - tail >= capacity` on wrapping words. */
  predicate LooksFull(h: nat, t: nat, capacity: nat) {
    h < t || h - t >= capacity
  }

  /** As long as the counters are less than 2^63 apart. */
  lemma LooksFullOnWords(h: nat, t: nat, capacity: nat)
    requires 1 <= capacity <= WORD / 2 && -(WORD / 2) <= h - t <= WORD / 2
    ensures LooksFull(h, t, capacity) <==> (h % WORD - t % WORD) % WORD >= capacity
    ensures LooksFull(h, t, capacity) <==> !(0 <= h - t < capacity)
  {
    assert (h % WORD - t % WORD) % WORD == (h - t) % WORD;
  }

  /** The first atomic access of a call. */
  function Start<V>(c: Claims<V>, i: nat, call: Call<V>): Claims<V>
    requires i < |c.pcs|
  {
    match call
    case Push(v) => c.(head := c.head + 1, pcs := c.pcs[i := Pushing(v, c.head)])
    case TryPush(v) => Move(c, i, PushSawHead(v, c.head))
    case Pop => c.(tail := c.tail + 1, pcs := c.pcs[i := Popping(c.tail)])
    case TryPop => Move(c, i, PopSawTail(c.tail))
  }

  /** The next atomic access of a `try_` call that has not claimed yet. */
  function Continue<V>(c: Claims<V>, i: nat): Claims<V>
    requires i < |c.pcs|
  {
    match c.pcs[i]
    case PushSawHead(v, h) => Move(c, i, PushSawBoth(v, h, c.tail))
    case PushSawBoth(v, h, t) =>
      if LooksFull(h, t, c.capacity) || c.head != h then Move(c, i, Idle)
      else c.(head := c.head + 1, pcs := c.pcs[i := Pushing(v, h)])
    case PopSawTail(t) => Move(c, i, PopSawBoth(t, c.head))
    case PopSawBoth(t, h) =>
      if t == h || c.tail != t then Move(c, i, Idle)
      else c.(tail := c.tail + 1, pcs := c.pcs[i := Popping(t)])
    case _ => c
  }

  function Step<V>(c: Claims<V>, a: Action<V>): (c': Claims<V>)
    ensures c'.capacity == c.capacity && |c'.pcs| == |c.pcs|
  {
    if a.thread >= |c.pcs| then c
    else
      match a
      case Begin(i, call) => if c.pcs[i].Idle? then Start(c, i, call) else c
      case Advance(i) => Continue(c, i)
  }

  /** The thread has returned, or still owns the same position and carries the same element. */
  ghost predicate StillOwns<V>(pc: Pc<V>, pc': Pc<V>)
    requires Claimed(pc)
  {
    pc'.Idle? ||
    (Claimed(pc') && pc'.ticket == pc.ticket && (Pushes(pc) <==> Pushes(pc')) && (Pushes(pc) ==> pc'.v == pc.v))
  }

  /** Thread `i` owns a position and works on its slot, which the queues define. */
  ghost predicate SlotStep<V>(c: Claims<V>, i: nat, c': Claims<V>) {
    i < |c.pcs| && Claimed(c.pcs[i]) && |c'.pcs| == |c.pcs| &&
    c' == Move(c, i, c'.pcs[i]) && StillOwns(c.pcs[i], c'.pcs[i])
  }

  ghost predicate Next<V>(c: Claims<V>, a: Action<V>, c': Claims<V>) {
    c' == Step(c, a) || (a.Advance? && SlotStep(c, a.thread, c'))
  }

  /** The states before, between and after the steps of a schedule. */
  ghost predicate Trace<V>(states: seq<Claims<V>>, acts: seq<Action<V>>) {
    |states| == |acts| + 1 &&
    forall k :: 0 <= k < |acts| ==> Next(states[k], acts[k], states[k + 1])
  }

  // ---------- Schedules ----------

  ghost predicate NoBlockingPush<V>(acts: seq<Action<V>>) {
    forall k :: 0 <= k < |acts| && acts[k].Begin? ==> !acts[k].call.Push?
  }

  ghost predicate NoBlockingPop<V>(acts: seq<Action<V>>) {
    forall k :: 0 <= k < |acts| && acts[k].Begin? ==> !acts[k].call.Pop?
  }

  // ---------- Counter bounds despite stale reads ----------

  /** What a producer has read is behind the counters, and room was never overdrawn. */
  ghost predicate PushBounded<V>(c: Claims<V>) {
    c.head <= c.tail + c.capacity &&
    forall i :: 0 <= i < |c.pcs| ==>
      (c.pcs[i].PushSawHead? ==> c.pcs[i].h <= c.head) &&
      (c.pcs[i].PushSawBoth? ==> c.pcs[i].h <= c.head && c.pcs[i].t <= c.tail)
  }

  /** What a consumer has read is behind the counters, and only filled positions are claimed. */
  ghost predicate PopBounded<V>(c: Claims<V>) {
    c.tail <= c.head &&
    forall i :: 0 <= i < |c.pcs| ==>
      (c.pcs[i].PopSawTail? ==> c.pcs[i].t <= c.tail) &&
      (c.pcs[i].PopSawBoth? ==> c.pcs[i].t <= c.tail && c.pcs[i].t <= c.pcs[i].h <= c.head)
  }

  lemma PushBoundedStep<V>(c: Claims<V>, a: Action<V>, c': Claims<V>)
    requires PushBounded(c) && Next(c, a, c')
    requires a.Begin? ==> !a.call.Push?
    ensures PushBounded(c')
  {
  }

  lemma PopBoundedStep<V>(c: Claims<V>, a: Action<V>, c': Claims<V>)
    requires PopBounded(c) && Next(c, a, c')
    requires a.Begin? ==> !a.call.Pop?
    ensures PopBounded(c')
  {
  }

  lemma {:induction false} PushBoundHolds<V>(states: seq<Claims<V>>, acts: seq<Action<V>>, k: nat)
    requires Trace(states, acts) && PushBounded(states[0]) && NoBlockingPush(acts) && k < |states|
    ensures PushBounded(states[k]) && states[k].capacity == states[0].capacity
  {
    if k > 0 {
      PushBoundHolds(states, acts, k - 1);
      PushBoundedStep(states[k - 1], acts[k - 1], states[k]);
    }
  }

  lemma {:induction false} PopBoundHolds<V>(states: seq<Claims<V>>, acts: seq<Action<V>>, k: nat)
    requires Trace(states, acts) && PopBounded(states[0]) && NoBlockingPop(acts) && k < |states|
    ensures PopBounded(states[k])
  {
    if k > 0 {
      PopBoundHolds(states, acts, k - 1);
      PopBoundedStep(states[k - 1], acts[k - 1], states[k]);
    }
  }

  /** Any number of threads doing only `try_push` and `try_pop` keep
      `0 <= head - tail <= capacity` at every moment. */
  lemma CounterBound<V>(capacity: nat, threads: nat, states: seq<Claims<V>>, acts: seq<Action<V>>, k: nat)
    requires Trace(states, acts) && states[0] == Init(capacity, threads) && k < |states|
    requires NoBlockingPush(acts) && NoBlockingPop(acts)
    ensures states[k].tail <= states[k].head <= states[k].tail + capacity
  {
    PushBoundHolds(states, acts, k);
    PopBoundHolds(states, acts, k);
  }

  // ---------- Refusals ----------

  /** Thread `i` calls `try_push` at step `a` and is inside that call up to step `b`. */
  ghost predicate TryPushSpans<V>(states: seq<Claims<V>>, acts: seq<Action<V>>, i: nat, a: nat, b: nat) {
    Trace(states, acts) && a < b < |acts| &&
    (forall k :: 0 <= k < |states| ==> i < |states[k].pcs|) &&
    states[a].pcs[i].Idle? && acts[a].Begin? && acts[a].thread == i && acts[a].call.TryPush? &&
    forall k :: a < k <= b ==> states[k].pcs[i].PushSawHead? || states[k].pcs[i].PushSawBoth?
  }

  ghost predicate TryPopSpans<V>(states: seq<Claims<V>>, acts: seq<Action<V>>, i: nat, a: nat, b: nat) {
    Trace(states, acts) && a < b < |acts| &&
    (forall k :: 0 <= k < |states| ==> i < |states[k].pcs|) &&
    states[a].pcs[i].Idle? && acts[a].Begin? && acts[a].thread == i && acts[a].call.TryPop? &&
    forall k :: a < k <= b ==> states[k].pcs[i].PopSawTail? || states[k].pcs[i].PopSawBoth?
  }

  /** At step `k` a thread other than `i` claims a position to push to. */
  ghost predicate OtherPushClaims<V>(states: seq<Claims<V>>, acts: seq<Action<V>>, i: nat, k: nat)
    requires k < |acts| && |states| == |acts| + 1
  {
    acts[k].thread != i && states[k + 1].head == states[k].head + 1
  }

  ghost predicate OtherPopClaims<V>(states: seq<Claims<V>>, acts: seq<Action<V>>, i: nat, k: nat)
    requires k < |acts| && |states| == |acts| + 1
  {
    acts[k].thread != i && states[k + 1].tail == states[k].tail + 1
  }

  /** During the call, the thread holds the head of step `a` and a tail of some moment in between. */
  lemma {:induction false} TryPushReads<V>(
      states: seq<Claims<V>>, acts: seq<Action<V>>, i: nat, a: nat, b: nat, k: nat) returns (m: nat)
    requires TryPushSpans(states, acts, i, a, b) && a < k <= b
    ensures states[k].pcs[i].h == states[a].head && states[k].capacity == states[a].capacity
    ensures a < m <= k && states[m].capacity == states[a].capacity
    ensures states[k].pcs[i].PushSawBoth? ==> states[k].pcs[i].t == states[m].tail
    decreases k
  {
    assert Next(states[k - 1], acts[k - 1], states[k]);
    m := k;
    if k > a + 1 {
      var m' := TryPushReads(states, acts, i, a, b, k - 1);
      if states[k - 1].pcs[i].PushSawBoth? {
        m := m';
      }
    }
  }

  lemma {:induction false} TryPopReads<V>(
      states: seq<Claims<V>>, acts: seq<Action<V>>, i: nat, a: nat, b: nat, k: nat) returns (m: nat)
    requires TryPopSpans(states, acts, i, a, b) && a < k <= b
    ensures states[k].pcs[i].t == states[a].tail
    ensures a < m <= k
    ensures states[k].pcs[i].PopSawBoth? ==> states[k].pcs[i].h == states[m].head
    decreases k
  {
    assert Next(states[k - 1], acts[k - 1], states[k]);
    m := k;
    if k > a + 1 {
      var m' := TryPopReads(states, acts, i, a, b, k - 1);
      if states[k - 1].pcs[i].PopSawBoth? {
        m := m';
      }
    }
  }

  /** If the head moved during a `try_push`, somebody else moved it. */
  lemma {:induction false} HeadMovedByOther<V>(
      states: seq<Claims<V>>, acts: seq<Action<V>>, i: nat, a: nat, b: nat, m: nat)
    requires TryPushSpans(states, acts, i, a, b) && a <= m <= b
    ensures states[a].head <= states[m].head
    ensures states[a].head < states[m].head ==> exists k :: a <= k < b && OtherPushClaims(states, acts, i, k)
    decreases m
  {
    if a < m {
      HeadMovedByOther(states, acts, i, a, b, m - 1);
      assert Next(states[m - 1], acts[m - 1], states[m]);
      if states[m].head != states[m - 1].head {
        assert OtherPushClaims(states, acts, i, m - 1);
      }
    }
  }

  lemma {:induction false} TailMovedByOther<V>(
      states: seq<Claims<V>>, acts: seq<Action<V>>, i: nat, a: nat, b: nat, m: nat)
    requires TryPopSpans(states, acts, i, a, b) && a <= m <= b
    ensures states[a].tail <= states[m].tail
    ensures states[a].tail < states[m].tail ==> exists k :: a <= k < b && OtherPopClaims(states, acts, i, k)
    decreases m
  {
    if a < m {
      TailMovedByOther(states, acts, i, a, b, m - 1);
      assert Next(states[m - 1], acts[m - 1], states[m]);
      if states[m].tail != states[m - 1].tail {
        assert OtherPopClaims(states, acts, i, m - 1);
      }
    }
  }

  /** In every run, a `try_push` that returns false overlaps a moment when no room showed, the tail
      being ahead of the head or a whole turn behind it, or a push claim of another thread. */
  lemma RefusedPushOverlaps<V>(states: seq<Claims<V>>, acts: seq<Action<V>>, i: nat, a: nat, b: nat)
    requires TryPushSpans(states, acts, i, a, b) && states[b + 1].pcs[i].Idle?
    ensures (exists m :: a < m <= b && !(0 <= states[m].head - states[m].tail < states[m].capacity)) ||
            (exists k :: a <= k < b && OtherPushClaims(states, acts, i, k))
  {
    assert Next(states[b], acts[b], states[b + 1]);
    var m := TryPushReads(states, acts, i, a, b, b);
    HeadMovedByOther(states, acts, i, a, b, m);
    HeadMovedByOther(states, acts, i, a, b, b);
  }

  /** With `try_` calls only, that moment is one when exactly `capacity` positions are taken:
      a refused call met a full queue or another call's progress. */
  lemma RefusedPushIsJustified<V>(
      capacity: nat, threads: nat, states: seq<Claims<V>>, acts: seq<Action<V>>, i: nat, a: nat, b: nat)
    requires TryPushSpans(states, acts, i, a, b) && states[b + 1].pcs[i].Idle?
    requires states[0] == Init(capacity, threads) && NoBlockingPush(acts) && NoBlockingPop(acts)
    ensures (exists m :: a < m <= b && states[m].head - states[m].tail == capacity) ||
            (exists k :: a <= k < b && OtherPushClaims(states, acts, i, k))
  {
    RefusedPushOverlaps(states, acts, i, a, b);
    if m :| a < m <= b && !(0 <= states[m].head - states[m].tail < states[m].capacity) {
      CounterBound(capacity, threads, states, acts, m);
      PushBoundHolds(states, acts, m);
    }
  }

  /** In every run, a `try_pop` that returns nothing overlaps a moment when the queue really
      was empty, or a pop claim of another thread. */
  lemma RefusedPopIsJustified<V>(states: seq<Claims<V>>, acts: seq<Action<V>>, i: nat, a: nat, b: nat)
    requires TryPopSpans(states, acts, i, a, b) && states[b + 1].pcs[i].Idle?
    ensures (exists m :: a < m <= b && states[m].head == states[m].tail) ||
            (exists k :: a <= k < b && OtherPopClaims(states, acts, i, k))
  {
    assert Next(states[b], acts[b], states[b + 1]);
    var m := TryPopReads(states, acts, i, a, b, b);
    TailMovedByOther(states, acts, i, a, b, m);
    TailMovedByOther(states, acts, i, a, b, b);
  }

  // ---------- What every call does ----------

  /** Thread `i` is idle and makes `call` at step `a`; its next two steps are `m` and `b`. */
  ghost predicate CallSteps<V>(
      states: seq<Claims<V>>, acts: seq<Action<V>>, i: nat, a: nat, m: nat, b: nat, call: Call<V>) {
    Trace(states, acts) && a < m < b < |acts| && i < |states[a].pcs| && states[a].pcs[i].Idle? &&
    acts[a] == Begin(i, call) && acts[m] == Advance(i) && acts[b] == Advance(i) &&
    forall k :: a < k < b && k != m ==> acts[k] != Advance(i)
  }

  /** A step moves its own thread only, and each counter stays or goes on by one. */
  lemma NextFrame<V>(c: Claims<V>, a: Action<V>, c': Claims<V>, i: nat)
    requires Next(c, a, c') && i < |c.pcs|
    ensures |c'.pcs| == |c.pcs| && c'.capacity == c.capacity
    ensures a.thread != i ==> c'.pcs[i] == c.pcs[i]
    ensures a.Begin? && !c.pcs[i].Idle? ==> c'.pcs[i] == c.pcs[i] && (a.thread == i ==> c' == c)
    ensures c.head <= c'.head <= c.head + 1 && c.tail <= c'.tail <= c.tail + 1
  {
  }

  /** The blocking calls claim at once: a push the head, a pop the tail. */
  lemma BlockingOutcome<V>(c: Claims<V>, a: Action<V>, c': Claims<V>)
    requires Next(c, a, c') && a.Begin? && a.thread < |c.pcs| && c.pcs[a.thread].Idle?
    ensures a.call.Push? ==>
      c'.head == c.head + 1 && c'.tail == c.tail && c'.pcs[a.thread] == Pushing(a.call.v, c.head)
    ensures a.call.Pop? ==>
      c'.head == c.head && c'.tail == c.tail + 1 && c'.pcs[a.thread] == Popping(c.tail)
  {
  }

  ghost predicate NoOtherPushClaim<V>(states: seq<Claims<V>>, acts: seq<Action<V>>, i: nat, a: nat, b: nat)
    requires b <= |acts| && |states| == |acts| + 1
  {
    forall k :: a <= k < b ==> !OtherPushClaims(states, acts, i, k)
  }

  ghost predicate NoOtherPopClaim<V>(states: seq<Claims<V>>, acts: seq<Action<V>>, i: nat, a: nat, b: nat)
    requires b <= |acts| && |states| == |acts| + 1
  {
    forall k :: a <= k < b ==> !OtherPopClaims(states, acts, i, k)
  }

  /** Inside the call: what the thread has loaded, and whether the head is still there. */
  lemma {:induction false} InsideTryPush<V>(
      states: seq<Claims<V>>, acts: seq<Action<V>>, i: nat, a: nat, m: nat, b: nat, v: V, k: nat)
    requires CallSteps(states, acts, i, a, m, b, TryPush(v)) && a < k <= b
    ensures i < |states[k].pcs| && states[k].capacity == states[a].capacity && m < |states|
    ensures states[k].pcs[i] == if k <= m then PushSawHead(v, states[a].head)
                                else PushSawBoth(v, states[a].head, states[m].tail)
    ensures states[a].head <= states[k].head
    ensures states[k].head == states[a].head <==> NoOtherPushClaim(states, acts, i, a, k)
    decreases k
  {
    assert Next(states[k - 1], acts[k - 1], states[k]);
    if k > a + 1 {
      InsideTryPush(states, acts, i, a, m, b, v, k - 1);
      NextFrame(states[k - 1], acts[k - 1], states[k], i);
    }
    assert OtherPushClaims(states, acts, i, k - 1) <==> states[k].head == states[k - 1].head + 1;
  }

  /** A `try_push` takes three steps of its thread.  With the head `h` of the first and the tail
      `t` of the second it claims position `h` for its element at the third exactly when
      `0 <= h - t < capacity` and no other push has claimed since the first; otherwise it returns
      and nothing else happens. */
  lemma TryPushOutcome<V>(
      states: seq<Claims<V>>, acts: seq<Action<V>>, i: nat, a: nat, m: nat, b: nat, v: V)
    requires CallSteps(states, acts, i, a, m, b, TryPush(v))
    ensures var h, t, c, c' := states[a].head, states[m].tail, states[b], states[b + 1];
            i < |c'.pcs| && c'.tail == c.tail &&
            if 0 <= h - t < c.capacity && NoOtherPushClaim(states, acts, i, a, b)
            then c.head == h && c'.head == h + 1 && c'.pcs[i] == Pushing(v, h)
            else c'.head == c.head && c'.pcs[i].Idle?
  {
    InsideTryPush(states, acts, i, a, m, b, v, b);
    assert Next(states[b], acts[b], states[b + 1]);
  }

  lemma {:induction false} InsideTryPop<V>(
      states: seq<Claims<V>>, acts: seq<Action<V>>, i: nat, a: nat, m: nat, b: nat, k: nat)
    requires CallSteps(states, acts, i, a, m, b, TryPop) && a < k <= b
    ensures i < |states[k].pcs| && m < |states|
    ensures states[k].pcs[i] == if k <= m then PopSawTail(states[a].tail)
                                else PopSawBoth(states[a].tail, states[m].head)
    ensures states[a].tail <= states[k].tail
    ensures states[k].tail == states[a].tail <==> NoOtherPopClaim(states, acts, i, a, k)
    decreases k
  {
    assert Next(states[k - 1], acts[k - 1], states[k]);
    if k > a + 1 {
      InsideTryPop(states, acts, i, a, m, b, k - 1);
      NextFrame(states[k - 1], acts[k - 1], states[k], i);
    }
    assert OtherPopClaims(states, acts, i, k - 1) <==> states[k].tail == states[k - 1].tail + 1;
  }

  /** A `try_pop` takes three steps of its thread.  With the tail `t` of the first and the head
      `h` of the second it claims position `t` at the third exactly when `h != t` and no other pop
      has claimed since the first; otherwise it returns and nothing else happens. */
  lemma TryPopOutcome<V>(
      states: seq<Claims<V>>, acts: seq<Action<V>>, i: nat, a: nat, m: nat, b: nat)
    requires CallSteps(states, acts, i, a, m, b, TryPop)
    ensures var t, h, c, c' := states[a].tail, states[m].head, states[b], states[b + 1];
            i < |c'.pcs| && c'.head == c.head &&
            if h != t && NoOtherPopClaim(states, acts, i, a, b)
            then c.tail == t && c'.tail == t + 1 && c'.pcs[i] == Popping(t)
            else c'.tail == c.tail && c'.pcs[i].Idle?
  {
    InsideTryPop(states, acts, i, a, m, b, b);
    assert Next(states[b], acts[b], states[b + 1]);
  }

  // ---------- The elements that are pushed ----------

  /** The argument of the last push that thread `i` has called within the first `n` steps. */
  function LastArgument<V>(states: seq<Claims<V>>, acts: seq<Action<V>>, i: nat, n: nat): Option<V>
    requires n <= |acts| < |states|
  {
    if n == 0 then None
    else
      var a, c := acts[n - 1], states[n - 1];
      if a.Begin? && a.thread == i < |c.pcs| && c.pcs[i].Idle? && (a.call.Push? || a.call.TryPush?) then
        Some(a.call.v)
      else LastArgument(states, acts, i, n - 1)
  }

  /** The arguments of the calls that have claimed a position to push to, in that order. */
  function Arguments<V>(states: seq<Claims<V>>, acts: seq<Action<V>>, n: nat): seq<Option<V>>
    requires n <= |acts| < |states|
  {
    if n == 0 then []
    else Arguments(states, acts, n - 1) +
         if states[n].head == states[n - 1].head then [] else [LastArgument(states, acts, acts[n - 1].thread, n)]
  }

  /** A pushing thread carries the argument of its call and nothing else. */
  lemma {:induction false} CarriesItsArgument<V>(states: seq<Claims<V>>, acts: seq<Action<V>>, i: nat, n: nat)
    requires Trace(states, acts) && n <= |acts| && i < |states[0].pcs| && states[0].pcs[i].Idle?
    ensures i < |states[n].pcs|
    ensures Pushes(states[n].pcs[i]) ==> LastArgument(states, acts, i, n) == Some(states[n].pcs[i].v)
    decreases n
  {
    if n > 0 {
      CarriesItsArgument(states, acts, i, n - 1);
      assert Next(states[n - 1], acts[n - 1], states[n]);
      NextFrame(states[n - 1], acts[n - 1], states[n], i);
    }
  }

  // ---------- Without TOTAL_ORDER ----------

  /** With `TOTAL_ORDER = false` the claim of a `try_` call is a fetch-and-add whose result is
      discarded: the call goes on with the position it has loaded. */
  function LooseContinue<V>(c: Claims<V>, i: nat): Claims<V>
    requires i < |c.pcs|
  {
    match c.pcs[i]
    case PushSawBoth(v, h, t) =>
      if LooksFull(h, t, c.capacity) then Move(c, i, Idle)
      else c.(head := c.head + 1, pcs := c.pcs[i := Pushing(v, h)])
    case PopSawBoth(t, h) =>
      if t == h then Move(c, i, Idle)
      else c.(tail := c.tail + 1, pcs := c.pcs[i := Popping(t)])
    case _ => Continue(c, i)
  }

  function LooseStep<V>(c: Claims<V>, a: Action<V>): (c': Claims<V>)
    ensures c'.capacity == c.capacity && |c'.pcs| == |c.pcs|
  {
    if a.Advance? && a.thread < |c.pcs| then LooseContinue(c, a.thread) else Step(c, a)
  }

  /** Such a call claims whatever other calls have done since it loaded the counters. */
  lemma LooseOutcome<V>(c: Claims<V>, i: nat)
    requires i < |c.pcs|
    ensures c.pcs[i].PushSawBoth? ==>
              var h, t := c.pcs[i].h, c.pcs[i].t;
              LooseStep(c, Advance(i)) ==
              if 0 <= h - t < c.capacity then Move(c, i, Pushing(c.pcs[i].v, h)).(head := c.head + 1)
              else Move(c, i, Idle)
    ensures c.pcs[i].PopSawBoth? ==>
              var t, h := c.pcs[i].t, c.pcs[i].h;
              LooseStep(c, Advance(i)) ==
              if t != h then Move(c, i, Popping(t)).(tail := c.tail + 1) else Move(c, i, Idle)
  {
  }

  /** Only thread `i` calls pushes and only thread `j` calls pops; they may be one thread. */
  predicate OneASide<V>(a: Action<V>, i: nat, j: nat) {
    a.Begin? ==> if a.call.Push? || a.call.TryPush? then a.thread == i else a.thread == j
  }

  /** Then what a call has loaded of its own counter is still there. */
  ghost predicate OwnCounters<V>(c: Claims<V>, i: nat, j: nat) {
    forall k :: 0 <= k < |c.pcs| ==>
      (c.pcs[k].PushSawHead? || c.pcs[k].PushSawBoth? ==> k == i && c.pcs[k].h == c.head) &&
      (c.pcs[k].PopSawTail? || c.pcs[k].PopSawBoth? ==> k == j && c.pcs[k].t == c.tail)
  }

  lemma OwnCountersStep<V>(c: Claims<V>, a: Action<V>, c': Claims<V>, i: nat, j: nat)
    requires OwnCounters(c, i, j) && OneASide(a, i, j) && Next(c, a, c')
    ensures OwnCounters(c', i, j)
  {
  }

  /** So the fetch-and-add and the compare-and-swap do the same. */
  lemma LooseStepIsStep<V>(c: Claims<V>, a: Action<V>, i: nat, j: nat)
    requires OwnCounters(c, i, j)
    ensures LooseStep(c, a) == Step(c, a)
  {
  }
}
