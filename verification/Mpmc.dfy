/** The ticket and slot-state protocol of AtomicQueue2 and AtomicQueueB2 with many
    producers and consumers (src/atomic_queue2.rs:109-172, 204-287 and 421-605,
    SPSC = false; `try_` calls with TOTAL_ORDER = true).

    A claimed push spins on flipping its slot from EMPTY to FULL, a claimed pop on
    flipping it from FULL to EMPTY; of the threads waiting at one slot any may win.
    A failed compare-and-swap, and the speculative load loop of a pop, change
    nothing and are steps that leave the state as it is.  The element is written
    and read only after the flip, in a step of its own; element values are not part
    of this model.  `flips` counts what happened and is never consulted by a step.
 */
module Mpmc {
  import opened Ring
  import opened Claiming

  /** Successful slot compare-and-swaps so far. */
  datatype Flips = Flips(filled: nat, emptied: nat)

  datatype Queue<V> = Queue(ring: Ring, claims: Claims<V>, full: seq<bool>, flips: seq<Flips>)
  {
    ghost predicate Shaped() {
      claims.capacity == |ring| && |full| == |ring| && |flips| == |ring|
    }
  }

  type Mpmc<V> = q: Queue<V> | q.Shaped() witness Queue([0], Claims(1, 0, 0, []), [false], [Flips(0, 0)])

  function New<V>(ring: Ring, threads: nat): (q: Mpmc<V>) {
    Queue(ring, Init(|ring|, threads), seq(|ring|, _ => false), seq(|ring|, _ => Flips(0, 0)))
  }

  function SetPc<V>(q: Mpmc<V>, i: nat, pc: Pc<V>): Mpmc<V>
    requires i < |q.claims.pcs|
  {
    q.(claims := Move(q.claims, i, pc))
  }

  /** src/atomic_queue2.rs:161 */
  function FillSlot<V>(q: Mpmc<V>, i: nat, v: V, ticket: nat): Mpmc<V>
    requires i < |q.claims.pcs|
  {
    var s := Slot(q.ring, ticket);
    if q.full[s] then q
    else SetPc(q.(full := q.full[s := true],
                  flips := q.flips[s := q.flips[s].(filled := q.flips[s].filled + 1)]),
               i, Writing(v, ticket))
  }

  /** src/atomic_queue2.rs:127 */
  function EmptySlot<V>(q: Mpmc<V>, i: nat, ticket: nat): Mpmc<V>
    requires i < |q.claims.pcs|
  {
    var s := Slot(q.ring, ticket);
    if !q.full[s] then q
    else SetPc(q.(full := q.full[s := false],
                  flips := q.flips[s := q.flips[s].(emptied := q.flips[s].emptied + 1)]),
               i, Reading(ticket))
  }

  function Step<V>(q: Mpmc<V>, a: Action<V>): (q': Mpmc<V>)
    ensures q'.ring == q.ring
  {
    if a.thread >= |q.claims.pcs| then q
    else if a.Begin? then q.(claims := Claiming.Step(q.claims, a))
    else
      match q.claims.pcs[a.thread]
      case Pushing(v, ticket) => FillSlot(q, a.thread, v, ticket)
      case Popping(ticket) => EmptySlot(q, a.thread, ticket)
      case Writing(_, _) => SetPc(q, a.thread, Idle)
      case Reading(_) => SetPc(q, a.thread, Idle)
      case _ => q.(claims := Claiming.Step(q.claims, a))
  }

  function Run<V>(q: Mpmc<V>, acts: seq<Action<V>>): (q': Mpmc<V>)
    ensures q'.ring == q.ring
  {
    if acts == [] then q else Step(Run(q, acts[..|acts| - 1]), acts[|acts| - 1])
  }

  // ---------- Counting waiters ----------

  /** A claimed call that has not flipped its slot yet. */
  predicate Waits<V>(pc: Pc<V>) {
    pc.Pushing? || pc.Popping?
  }

  predicate WaitsAt<V>(ring: Ring, pc: Pc<V>, s: nat, pusher: bool) {
    if pusher then pc.Pushing? && Slot(ring, pc.ticket) == s
    else pc.Popping? && Slot(ring, pc.ticket) == s
  }

  function Waiting<V>(ring: Ring, pc: Pc<V>, s: nat, pusher: bool): nat {
    if WaitsAt(ring, pc, s, pusher) then 1 else 0
  }

  function WaitersAt<V>(ring: Ring, pcs: seq<Pc<V>>, s: nat, pusher: bool): nat {
    if pcs == [] then 0
    else WaitersAt(ring, pcs[..|pcs| - 1], s, pusher) + Waiting(ring, pcs[|pcs| - 1], s, pusher)
  }

  function Waiters<V>(pcs: seq<Pc<V>>): nat {
    if pcs == [] then 0 else Waiters(pcs[..|pcs| - 1]) + if Waits(pcs[|pcs| - 1]) then 1 else 0
  }

  lemma {:induction false} WaitersAtUpdate<V>(ring: Ring, pcs: seq<Pc<V>>, i: nat, pc: Pc<V>, s: nat, pusher: bool)
    requires i < |pcs|
    ensures WaitersAt(ring, pcs[i := pc], s, pusher) + Waiting(ring, pcs[i], s, pusher)
         == WaitersAt(ring, pcs, s, pusher) + Waiting(ring, pc, s, pusher)
  {
    var n := |pcs| - 1;
    if i == n {
      assert pcs[i := pc][..n] == pcs[..n];
    } else {
      assert pcs[i := pc][..n] == pcs[..n][i := pc];
      WaitersAtUpdate(ring, pcs[..n], i, pc, s, pusher);
    }
  }

  lemma {:induction false} WaitersUpdate<V>(pcs: seq<Pc<V>>, i: nat, pc: Pc<V>)
    requires i < |pcs|
    ensures Waiters(pcs[i := pc]) + (if Waits(pcs[i]) then 1 else 0)
         == Waiters(pcs) + (if Waits(pc) then 1 else 0)
  {
    var n := |pcs| - 1;
    if i == n {
      assert pcs[i := pc][..n] == pcs[..n];
    } else {
      assert pcs[i := pc][..n] == pcs[..n][i := pc];
      WaitersUpdate(pcs[..n], i, pc);
    }
  }

  lemma {:induction false} FindWaiterAt<V>(ring: Ring, pcs: seq<Pc<V>>, s: nat, pusher: bool) returns (i: nat)
    requires WaitersAt(ring, pcs, s, pusher) > 0
    ensures i < |pcs| && WaitsAt(ring, pcs[i], s, pusher)
  {
    i := |pcs| - 1;
    if !WaitsAt(ring, pcs[i], s, pusher) {
      i := FindWaiterAt(ring, pcs[..|pcs| - 1], s, pusher);
    }
  }

  lemma {:induction false} FindWaiter<V>(pcs: seq<Pc<V>>) returns (i: nat)
    requires Waiters(pcs) > 0
    ensures i < |pcs| && Waits(pcs[i])
  {
    i := |pcs| - 1;
    if !Waits(pcs[i]) {
      i := FindWaiter(pcs[..|pcs| - 1]);
    }
  }

  lemma {:induction false} NobodyWaits<V>(ring: Ring, pcs: seq<Pc<V>>, s: nat, pusher: bool)
    requires Waiters(pcs) == 0
    ensures WaitersAt(ring, pcs, s, pusher) == 0
  {
    if pcs != [] {
      NobodyWaits(ring, pcs[..|pcs| - 1], s, pusher);
    }
  }

  // ---------- The invariant ----------

  /** At slot `s`, every claimed position is flipped or waited for, and the flips
      alternate with the slot's state as their difference. */
  ghost predicate Balanced<V>(q: Mpmc<V>, s: nat)
    requires s < |q.ring|
  {
    Tickets(q.ring, q.claims.head, s) == q.flips[s].filled + WaitersAt(q.ring, q.claims.pcs, s, true) &&
    Tickets(q.ring, q.claims.tail, s) == q.flips[s].emptied + WaitersAt(q.ring, q.claims.pcs, s, false) &&
    q.flips[s].filled == q.flips[s].emptied + if q.full[s] then 1 else 0
  }

  ghost predicate Inv<V>(q: Mpmc<V>) {
    forall s :: 0 <= s < |q.ring| ==> Balanced(q, s)
  }

  lemma {:induction false} NobodyWaitsAtStart<V>(ring: Ring, threads: nat, s: nat, pusher: bool)
    ensures WaitersAt(ring, Init<V>(|ring|, threads).pcs, s, pusher) == 0
  {
    var pcs := Init<V>(|ring|, threads).pcs;
    if threads > 0 {
      assert pcs[..threads - 1] == Init<V>(|ring|, threads - 1).pcs;
      NobodyWaitsAtStart<V>(ring, threads - 1, s, pusher);
    }
  }

  lemma InvAtStart<V>(ring: Ring, threads: nat)
    ensures Inv(New<V>(ring, threads))
  {
    var q := New<V>(ring, threads);
    forall s | 0 <= s < |ring| ensures Balanced(q, s) {
      NobodyWaitsAtStart<V>(ring, threads, s, true);
      NobodyWaitsAtStart<V>(ring, threads, s, false);
    }
  }

  /** One thread moves on: how each side of the balance at `s` changes. */
  lemma BalancedMove<V>(q: Mpmc<V>, q': Mpmc<V>, i: nat, pc: Pc<V>, s: nat)
    requires s < |q.ring| && Balanced(q, s)
    requires q'.ring == q.ring && i < |q.claims.pcs| && q'.claims.pcs == q.claims.pcs[i := pc]
    requires Tickets(q.ring, q'.claims.head, s) + q.flips[s].filled + Waiting(q.ring, q.claims.pcs[i], s, true)
          == Tickets(q.ring, q.claims.head, s) + q'.flips[s].filled + Waiting(q.ring, pc, s, true)
    requires Tickets(q.ring, q'.claims.tail, s) + q.flips[s].emptied + Waiting(q.ring, q.claims.pcs[i], s, false)
          == Tickets(q.ring, q.claims.tail, s) + q'.flips[s].emptied + Waiting(q.ring, pc, s, false)
    requires q'.flips[s].filled == q'.flips[s].emptied + if q'.full[s] then 1 else 0
    ensures Balanced(q', s)
  {
    WaitersAtUpdate(q.ring, q.claims.pcs, i, pc, s, true);
    WaitersAtUpdate(q.ring, q.claims.pcs, i, pc, s, false);
  }

  lemma FillStep<V>(q: Mpmc<V>, i: nat, v: V, ticket: nat, s: nat)
    requires s < |q.ring| && Balanced(q, s)
    requires i < |q.claims.pcs| && q.claims.pcs[i] == Pushing(v, ticket)
    ensures Balanced(FillSlot(q, i, v, ticket), s)
  {
    if !q.full[Slot(q.ring, ticket)] {
      BalancedMove(q, FillSlot(q, i, v, ticket), i, Writing(v, ticket), s);
    }
  }

  lemma EmptyStep<V>(q: Mpmc<V>, i: nat, ticket: nat, s: nat)
    requires s < |q.ring| && Balanced(q, s)
    requires i < |q.claims.pcs| && q.claims.pcs[i] == Popping(ticket)
    ensures Balanced(EmptySlot(q, i, ticket), s)
  {
    if q.full[Slot(q.ring, ticket)] {
      BalancedMove(q, EmptySlot(q, i, ticket), i, Reading(ticket), s);
    }
  }

  /** A step of the claiming layer moves one thread; it takes the next position to push to or
      to pop from, or none. */
  ghost predicate OneClaim<V>(c: Claims<V>, c': Claims<V>, i: nat, pc: Pc<V>) {
    i < |c.pcs| && !Waits(c.pcs[i]) && c'.pcs == c.pcs[i := pc] && c'.capacity == c.capacity &&
    if pc.Pushing? then c'.head == c.head + 1 && c'.tail == c.tail && pc.ticket == c.head
    else if pc.Popping? then c'.head == c.head && c'.tail == c.tail + 1 && pc.ticket == c.tail
    else c'.head == c.head && c'.tail == c.tail
  }

  lemma ClaimMoves<V>(c: Claims<V>, a: Action<V>)
    requires a.thread < |c.pcs| && Claiming.Step(c, a) != c
    requires a.Advance? ==> !Claimed(c.pcs[a.thread])
    ensures var c' := Claiming.Step(c, a); OneClaim(c, c', a.thread, c'.pcs[a.thread])
  {
  }

  lemma ClaimBalances<V>(q: Mpmc<V>, c': Claims<V>, i: nat, pc: Pc<V>, s: nat)
    requires s < |q.ring| && Balanced(q, s) && OneClaim(q.claims, c', i, pc)
    ensures Balanced(q.(claims := c'), s)
  {
    BalancedMove(q, q.(claims := c'), i, pc, s);
  }

  lemma ClaimStep<V>(q: Mpmc<V>, a: Action<V>, s: nat)
    requires s < |q.ring| && Balanced(q, s)
    requires a.thread < |q.claims.pcs|
    requires a.Advance? ==> !Claimed(q.claims.pcs[a.thread])
    ensures Balanced(q.(claims := Claiming.Step(q.claims, a)), s)
  {
    var c' := Claiming.Step(q.claims, a);
    if c' != q.claims {
      ClaimMoves(q.claims, a);
      ClaimBalances(q, c', a.thread, c'.pcs[a.thread], s);
    }
  }

  lemma LeaveStep<V>(q: Mpmc<V>, i: nat, s: nat)
    requires s < |q.ring| && Balanced(q, s)
    requires i < |q.claims.pcs| && (q.claims.pcs[i].Writing? || q.claims.pcs[i].Reading?)
    ensures Balanced(SetPc(q, i, Idle), s)
  {
    BalancedMove(q, SetPc(q, i, Idle), i, Idle, s);
  }

  lemma SlotWorkBalances<V>(q: Mpmc<V>, i: nat, s: nat)
    requires s < |q.ring| && Balanced(q, s) && i < |q.claims.pcs| && Claimed(q.claims.pcs[i])
    ensures Balanced(Step(q, Advance(i)), s)
  {
    match q.claims.pcs[i]
    case Pushing(v, ticket) => FillStep(q, i, v, ticket, s);
    case Popping(ticket) => EmptyStep(q, i, ticket, s);
    case Writing(_, _) => LeaveStep(q, i, s);
    case Reading(_) => LeaveStep(q, i, s);
    case Took(_, _) =>
  }

  lemma BalancedStep<V>(q: Mpmc<V>, a: Action<V>, s: nat)
    requires s < |q.ring| && Balanced(q, s)
    ensures Balanced(Step(q, a), s)
  {
    if a.thread < |q.claims.pcs| {
      if a.Advance? && Claimed(q.claims.pcs[a.thread]) {
        SlotWorkBalances(q, a.thread, s);
      } else {
        ClaimStep(q, a, s);
      }
    }
  }

  lemma InvStep<V>(q: Mpmc<V>, a: Action<V>)
    requires Inv(q)
    ensures Inv(Step(q, a))
  {
    forall s | 0 <= s < |q.ring| ensures Balanced(Step(q, a), s) {
      assert Balanced(q, s);
      BalancedStep(q, a, s);
    }
  }

  lemma {:induction false} InvHolds<V>(q: Mpmc<V>, acts: seq<Action<V>>)
    requires Inv(q)
    ensures Inv(Run(q, acts))
  {
    if acts != [] {
      InvHolds(q, acts[..|acts| - 1]);
      InvStep(Run(q, acts[..|acts| - 1]), acts[|acts| - 1]);
    }
  }

  // ---------- Quiescence ----------

  /** How many of the first `k` slots are FULL. */
  function FullSlots(full: seq<bool>, k: nat): nat
    requires k <= |full|
  {
    if k == 0 then 0 else FullSlots(full, k - 1) + if full[k - 1] then 1 else 0
  }

  lemma {:induction false} FullSlotsBound(full: seq<bool>, k: nat)
    requires k <= |full|
    ensures FullSlots(full, k) <= k
  {
    if k > 0 {
      FullSlotsBound(full, k - 1);
    }
  }

  /** Without waiters the tickets of a slot differ by its state. */
  lemma SettledSlot<V>(q: Mpmc<V>, s: nat)
    requires Inv(q) && Waiters(q.claims.pcs) == 0 && s < |q.ring|
    ensures Tickets(q.ring, q.claims.head, s) == Tickets(q.ring, q.claims.tail, s) + if q.full[s] then 1 else 0
  {
    assert Balanced(q, s);
    NobodyWaits(q.ring, q.claims.pcs, s, true);
    NobodyWaits(q.ring, q.claims.pcs, s, false);
  }

  lemma SettledCounters<V>(q: Mpmc<V>)
    requires Inv(q) && Waiters(q.claims.pcs) == 0
    ensures q.claims.tail <= q.claims.head <= q.claims.tail + |q.ring|
  {
    var head, tail := q.claims.head, q.claims.tail;
    if head < tail {
      var s := Slot(q.ring, head);
      SettledSlot(q, s);
      assert Slot(q.ring, head) == s;
      assert InWindow(q.ring, head, tail, s);
      TicketsMonotone(q.ring, head, tail, s);
      assert false;
    }
    if head > tail + |q.ring| {
      SettledSlot(q, Slot(q.ring, tail));
      OverfullTurn(q.ring, tail, head);
      assert false;
    }
  }

  lemma {:induction false} SettledSize<V>(q: Mpmc<V>, k: nat)
    requires Inv(q) && Waiters(q.claims.pcs) == 0 && k <= |q.ring|
    ensures TicketsBelow(q.ring, q.claims.head, k) == TicketsBelow(q.ring, q.claims.tail, k) + FullSlots(q.full, k)
  {
    if k > 0 {
      SettledSize(q, k - 1);
      SettledSlot(q, k - 1);
    }
  }

  /** Whoever won each slot: once nobody waits, the FULL slots are exactly the slots
      of the positions from tail to head, and `was_size` counts them. */
  lemma Quiescence<V>(ring: Ring, threads: nat, acts: seq<Action<V>>)
    requires Waiters(Run(New<V>(ring, threads), acts).claims.pcs) == 0
    ensures var q := Run(New<V>(ring, threads), acts);
            q.claims.tail <= q.claims.head <= q.claims.tail + |ring| &&
            q.claims.head - q.claims.tail == FullSlots(q.full, |ring|) &&
            forall s :: 0 <= s < |ring| ==> (q.full[s] <==> InWindow(ring, q.claims.tail, q.claims.head, s))
  {
    var q := Run(New<V>(ring, threads), acts);
    InvAtStart<V>(ring, threads);
    InvHolds(New<V>(ring, threads), acts);
    SettledCounters(q);
    SettledSize(q, |ring|);
    EveryTicketHasASlot(ring, q.claims.head);
    EveryTicketHasASlot(ring, q.claims.tail);
    forall s | 0 <= s < |ring| ensures q.full[s] <==> InWindow(ring, q.claims.tail, q.claims.head, s) {
      SettledSlot(q, s);
      WindowCount(ring, q.claims.tail, q.claims.head, s);
    }
  }

  // ---------- Occupancy ----------

  function Filled(flips: seq<Flips>): nat {
    if flips == [] then 0 else Filled(flips[..|flips| - 1]) + flips[|flips| - 1].filled
  }

  function Emptied(flips: seq<Flips>): nat {
    if flips == [] then 0 else Emptied(flips[..|flips| - 1]) + flips[|flips| - 1].emptied
  }

  lemma {:induction false} FlipsBalance<V>(q: Mpmc<V>, k: nat)
    requires Inv(q) && k <= |q.ring|
    ensures Filled(q.flips[..k]) == Emptied(q.flips[..k]) + FullSlots(q.full, k)
  {
    if k > 0 {
      assert q.flips[..k][..k - 1] == q.flips[..k - 1];
      assert Balanced(q, k - 1);
      FlipsBalance(q, k - 1);
    }
  }

  /** At every moment of every run, even while blocking claims run arbitrarily far
      ahead: a slot's flips differ by its state, and the pushes that have passed their
      slot exceed the pops that have by the number of FULL slots, at most the capacity. */
  lemma Occupancy<V>(ring: Ring, threads: nat, acts: seq<Action<V>>)
    ensures var q := Run(New<V>(ring, threads), acts);
            Emptied(q.flips) <= Filled(q.flips) <= Emptied(q.flips) + |ring| &&
            Filled(q.flips) - Emptied(q.flips) == FullSlots(q.full, |ring|) &&
            forall s :: 0 <= s < |ring| ==> q.flips[s].filled - q.flips[s].emptied == if q.full[s] then 1 else 0
  {
    var q := Run(New<V>(ring, threads), acts);
    InvAtStart<V>(ring, threads);
    InvHolds(New<V>(ring, threads), acts);
    assert q.flips[..|ring|] == q.flips;
    FlipsBalance(q, |ring|);
    FullSlotsBound(q.full, |ring|);
    forall s | 0 <= s < |ring| ensures q.flips[s].filled - q.flips[s].emptied == if q.full[s] then 1 else 0 {
      assert Balanced(q, s);
    }
  }

  // ---------- Progress ----------

  /** The slot compare-and-swap of thread `i` would succeed now. */
  ghost predicate CanFlip<V>(q: Mpmc<V>, i: nat) {
    i < |q.claims.pcs| &&
    (if q.claims.pcs[i].Pushing? then !q.full[Slot(q.ring, q.claims.pcs[i].ticket)]
     else q.claims.pcs[i].Popping? && q.full[Slot(q.ring, q.claims.pcs[i].ticket)])
  }

  /** Where calls wait at a slot and the counters are within one turn, one of them can go on. */
  lemma SomeWaiterCanFlip<V>(q: Mpmc<V>, i: nat) returns (j: nat)
    requires Inv(q) && q.claims.tail <= q.claims.head <= q.claims.tail + |q.ring|
    requires i < |q.claims.pcs| && Waits(q.claims.pcs[i])
    ensures CanFlip(q, j) && Slot(q.ring, q.claims.pcs[j].ticket) == Slot(q.ring, q.claims.pcs[i].ticket)
  {
    var s := Slot(q.ring, q.claims.pcs[i].ticket);
    assert Balanced(q, s);
    WindowCount(q.ring, q.claims.tail, q.claims.head, s);
    if CanFlip(q, i) {
      j := i;
    } else {
      if WaitersAt(q.ring, q.claims.pcs, s, !q.full[s]) == 0 {
        WaiterCounts(q.ring, q.claims.pcs, i, s);
        assert false;
      }
      j := FindWaiterAt(q.ring, q.claims.pcs, s, !q.full[s]);
    }
  }

  /** So in every reachable state with the counters within one turn: where calls wait at a
      slot, the compare-and-swap of one of them succeeds now. */
  lemma WaitersProgress<V>(ring: Ring, threads: nat, acts: seq<Action<V>>, i: nat) returns (j: nat)
    requires var c := Run(New<V>(ring, threads), acts).claims;
             c.tail <= c.head <= c.tail + |ring| && i < |c.pcs| && Waits(c.pcs[i])
    ensures var q := Run(New<V>(ring, threads), acts);
            CanFlip(q, j) && Slot(ring, q.claims.pcs[j].ticket) == Slot(ring, q.claims.pcs[i].ticket)
  {
    InvAtStart<V>(ring, threads);
    InvHolds(New<V>(ring, threads), acts);
    j := SomeWaiterCanFlip(Run(New<V>(ring, threads), acts), i);
  }

  lemma {:induction false} WaiterCounts<V>(ring: Ring, pcs: seq<Pc<V>>, i: nat, s: nat)
    requires i < |pcs| && Waits(pcs[i]) && Slot(ring, pcs[i].ticket) == s
    ensures WaitersAt(ring, pcs, s, pcs[i].Pushing?) > 0
  {
    if i < |pcs| - 1 {
      WaiterCounts(ring, pcs[..|pcs| - 1], i, s);
    }
  }

  /** A schedule of successful slot flips only. */
  ghost predicate OnlyFlips<V>(q: Mpmc<V>, acts: seq<Action<V>>) {
    forall k :: 0 <= k < |acts| ==> acts[k].Advance? && CanFlip(Run(q, acts[..k]), acts[k].thread)
  }

  lemma FlipStep<V>(q: Mpmc<V>, i: nat)
    requires CanFlip(q, i)
    ensures var q' := Step(q, Advance(i));
            Waiters(q'.claims.pcs) + 1 == Waiters(q.claims.pcs) &&
            q'.claims.head == q.claims.head && q'.claims.tail == q.claims.tail
  {
    WaitersUpdate(q.claims.pcs, i, Step(q, Advance(i)).claims.pcs[i]);
  }

  lemma FlipsPrefix<V>(q: Mpmc<V>, acts: seq<Action<V>>, n: nat)
    requires OnlyFlips(q, acts) && n <= |acts|
    ensures OnlyFlips(q, acts[..n])
  {
    forall k | 0 <= k < n ensures acts[..n][k].Advance? && CanFlip(Run(q, acts[..n][..k]), acts[..n][k].thread) {
      assert acts[..n][..k] == acts[..k];
    }
  }

  /** Every flip serves one waiter and claims nothing. */
  lemma {:induction false} FlipsServeWaiters<V>(q: Mpmc<V>, acts: seq<Action<V>>)
    requires OnlyFlips(q, acts)
    ensures var q' := Run(q, acts);
            |acts| + Waiters(q'.claims.pcs) == Waiters(q.claims.pcs) &&
            q'.claims.head == q.claims.head && q'.claims.tail == q.claims.tail
  {
    if acts != [] {
      var n := |acts| - 1;
      FlipsPrefix(q, acts, n);
      FlipsServeWaiters(q, acts[..n]);
      FlipStep(Run(q, acts[..n]), acts[n].thread);
    }
  }

  /** With new claims frozen, any flips made so far extend to flips that serve everybody:
      no order of winners gets stuck, and each takes exactly as many flips as there were waiters. */
  lemma {:induction false} Drain<V>(q: Mpmc<V>, acts: seq<Action<V>>) returns (all: seq<Action<V>>)
    requires Inv(q) && q.claims.tail <= q.claims.head <= q.claims.tail + |q.ring|
    requires OnlyFlips(q, acts)
    ensures acts <= all && OnlyFlips(q, all)
    ensures |all| == Waiters(q.claims.pcs) && Waiters(Run(q, all).claims.pcs) == 0
    decreases Waiters(q.claims.pcs) - |acts|
  {
    FlipsServeWaiters(q, acts);
    var q' := Run(q, acts);
    if Waiters(q'.claims.pcs) == 0 {
      all := acts;
    } else {
      InvHolds(q, acts);
      var i := FindWaiter(q'.claims.pcs);
      var j := SomeWaiterCanFlip(q', i);
      FlipsExtend(q, acts, j);
      FlipsServeWaiters(q, acts + [Advance(j)]);
      all := Drain(q, acts + [Advance(j)]);
    }
  }

  lemma FlipsExtend<V>(q: Mpmc<V>, acts: seq<Action<V>>, j: nat)
    requires OnlyFlips(q, acts) && CanFlip(Run(q, acts), j)
    ensures OnlyFlips(q, acts + [Advance(j)])
  {
    var more := acts + [Advance(j)];
    forall k | 0 <= k < |more| ensures more[k].Advance? && CanFlip(Run(q, more[..k]), more[k].thread) {
      if k < |acts| {
        assert more[..k] == acts[..k];
      } else {
        assert more[..k] == acts;
      }
    }
  }

  /** A claimed call that has not returned yet. */
  predicate Busy<V>(pc: Pc<V>) {
    Waits(pc) || pc.Writing? || pc.Reading?
  }

  ghost predicate Settled<V>(q: Mpmc<V>) {
    forall i :: 0 <= i < |q.claims.pcs| ==> !Busy(q.claims.pcs[i])
  }

  lemma SettledHasNoWaiters<V>(q: Mpmc<V>)
    requires Settled(q)
    ensures Waiters(q.claims.pcs) == 0
  {
    if Waiters(q.claims.pcs) > 0 {
      var i := FindWaiter(q.claims.pcs);
    }
  }

  lemma {:induction false} NotAWaiter<V>(pcs: seq<Pc<V>>, i: nat)
    requires Waiters(pcs) == 0 && i < |pcs|
    ensures !Waits(pcs[i])
  {
    if i < |pcs| - 1 {
      NotAWaiter(pcs[..|pcs| - 1], i);
    }
  }

  /** Once nobody waits, every call that has flipped its slot returns: here thread by thread. */
  lemma {:induction false} Return<V>(q: Mpmc<V>, acts: seq<Action<V>>, k: nat) returns (all: seq<Action<V>>)
    requires Waiters(Run(q, acts).claims.pcs) == 0 && k <= |Run(q, acts).claims.pcs|
    requires forall i :: 0 <= i < k ==> !Busy(Run(q, acts).claims.pcs[i])
    ensures Settled(Run(q, all))
    ensures Run(q, all).claims.head == Run(q, acts).claims.head && Run(q, all).claims.tail == Run(q, acts).claims.tail
    decreases |Run(q, acts).claims.pcs| - k
  {
    var q' := Run(q, acts);
    if k == |q'.claims.pcs| {
      all := acts;
    } else {
      NotAWaiter(q'.claims.pcs, k);
      if Busy(q'.claims.pcs[k]) {
        assert (acts + [Advance(k)])[..|acts|] == acts;
        WaitersUpdate(q'.claims.pcs, k, Idle);
        all := Return(q, acts + [Advance(k)], k + 1);
      } else {
        all := Return(q, acts, k + 1);
      }
    }
  }

  /** All claimed calls can return without any further claim. */
  ghost predicate Drains<V(!new)>(q: Mpmc<V>) {
    exists acts: seq<Action<V>> ::
      var q' := Run(q, acts);
      Settled(q') && q'.claims.head == q.claims.head && q'.claims.tail == q.claims.tail
  }

  /** The claimed calls of a reachable state can all return exactly when the counters
      are within one turn of the ring. */
  lemma DrainsExactlyWithinOneTurn<V(!new)>(ring: Ring, threads: nat, acts: seq<Action<V>>)
    ensures var q := Run(New<V>(ring, threads), acts);
            Drains(q) <==> q.claims.tail <= q.claims.head <= q.claims.tail + |ring|
  {
    var q := Run(New<V>(ring, threads), acts);
    InvAtStart<V>(ring, threads);
    InvHolds(New<V>(ring, threads), acts);
    if q.claims.tail <= q.claims.head <= q.claims.tail + |ring| {
      var flips := Drain(q, []);
      FlipsServeWaiters(q, flips);
      var all := Return(q, flips, 0);
    }
    if Drains(q) {
      var more: seq<Action<V>> :|
        var q' := Run(q, more);
        Settled(q') && q'.claims.head == q.claims.head && q'.claims.tail == q.claims.tail;
      InvHolds(q, more);
      SettledHasNoWaiters(Run(q, more));
      SettledCounters(Run(q, more));
    }
  }

  /** What the next step of a thread that owns a position does: a waiting one that can flip its
      slot does, and that slot only; one that cannot changes nothing; one that has flipped
      returns. */
  lemma SlotStepOutcome<V>(q: Mpmc<V>, i: nat)
    requires i < |q.claims.pcs| && Busy(q.claims.pcs[i])
    ensures var pc, s, q' := q.claims.pcs[i], Slot(q.ring, q.claims.pcs[i].ticket), Step(q, Advance(i));
            q'.claims.head == q.claims.head && q'.claims.tail == q.claims.tail &&
            |q'.claims.pcs| == |q.claims.pcs| &&
            (forall j :: 0 <= j < |q.claims.pcs| && j != i ==> q'.claims.pcs[j] == q.claims.pcs[j]) &&
            (Waits(pc) ==>
               if CanFlip(q, i)
               then q'.full == q.full[s := !q.full[s]] && Busy(q'.claims.pcs[i]) && !Waits(q'.claims.pcs[i])
               else q' == q) &&
            (!Waits(pc) ==> q'.full == q.full && q'.claims.pcs[i].Idle?)
  {
  }

  // ---------- The claiming part of a run ----------

  function States<V>(q: Mpmc<V>, acts: seq<Action<V>>): seq<Claims<V>> {
    seq(|acts| + 1, k requires 0 <= k <= |acts| => Run(q, acts[..k]).claims)
  }

  lemma StepIsNext<V>(q: Mpmc<V>, a: Action<V>)
    ensures Next(q.claims, a, Step(q, a).claims)
  {
  }

  /** The claiming states of every run form a trace of the claiming layer under the same schedule. */
  lemma RunsAreTraces<V>(q: Mpmc<V>, acts: seq<Action<V>>)
    ensures Trace(States(q, acts), acts) && States(q, acts)[|acts|] == Run(q, acts).claims
  {
    assert acts[..|acts|] == acts;
    forall k | 0 <= k < |acts| ensures Next(States(q, acts)[k], acts[k], States(q, acts)[k + 1]) {
      assert acts[..k + 1][..k] == acts[..k];
      StepIsNext(Run(q, acts[..k]), acts[k]);
    }
  }

  /** With `try_` calls only (TOTAL_ORDER), the counters stay within one turn, so at every
      moment all claimed calls can finish. */
  lemma TryCallsNeverBlock<V(!new)>(ring: Ring, threads: nat, acts: seq<Action<V>>)
    requires NoBlockingPush(acts) && NoBlockingPop(acts)
    ensures var q := Run(New<V>(ring, threads), acts);
            q.claims.tail <= q.claims.head <= q.claims.tail + |ring| && Drains(q)
  {
    var q := New<V>(ring, threads);
    RunsAreTraces(q, acts);
    CounterBound<V>(|ring|, threads, States(q, acts), acts, |acts|);
    DrainsExactlyWithinOneTurn<V>(ring, threads, acts);
  }

  /** A `try_push` of thread `i` that spans steps `a` to `b` of a run of `try_` calls and is
      refused met, in between, a full queue or another thread's push claim. */
  lemma RefusedPush<V>(ring: Ring, threads: nat, acts: seq<Action<V>>, i: nat, a: nat, b: nat)
    requires NoBlockingPush(acts) && NoBlockingPop(acts)
    requires var states := States(New<V>(ring, threads), acts);
             TryPushSpans(states, acts, i, a, b) && states[b + 1].pcs[i].Idle?
    ensures var states := States(New<V>(ring, threads), acts);
            (exists m :: a < m <= b && states[m].head - states[m].tail == |ring|) ||
            (exists k :: a <= k < b && OtherPushClaims(states, acts, i, k))
  {
    RefusedPushIsJustified(|ring|, threads, States(New<V>(ring, threads), acts), acts, i, a, b);
  }

  /** A `try_pop` that returns nothing met, in between, an empty queue or another thread's
      pop claim, in every run. */
  lemma RefusedPop<V>(q: Mpmc<V>, acts: seq<Action<V>>, i: nat, a: nat, b: nat)
    requires TryPopSpans(States(q, acts), acts, i, a, b) && States(q, acts)[b + 1].pcs[i].Idle?
    ensures var states := States(q, acts);
            (exists m :: a < m <= b && states[m].head == states[m].tail) ||
            (exists k :: a <= k < b && OtherPopClaims(states, acts, i, k))
  {
    RefusedPopIsJustified(States(q, acts), acts, i, a, b);
  }

  /** On every ring, with a pop waiting on the empty queue, `try_push` returns false: the tail is
      ahead of the head. */
  lemma WaitingPopRefusesPush<V>(ring: Ring, v: V)
    ensures var c := Run(New<V>(ring, 2), [Begin(0, Pop), Begin(1, TryPush(v)), Advance(1), Advance(1)]).claims;
            c.head == 0 && c.tail == 1 && c.pcs == [Popping(0), Idle]
  {
    var q := New<V>(ring, 2);
    var acts: seq<Action<V>> := [Begin(0, Pop), Begin(1, TryPush(v)), Advance(1), Advance(1)];
    assert acts[..3][..2] == acts[..2] && acts[..2][..1] == acts[..1] && acts[..1][..0] == [];
    assert acts[..2][1] == acts[1] && acts[..3][2] == acts[2];
    assert Run(q, acts[..1]).claims.pcs == [Popping(0), Idle];
    assert Run(q, acts[..2]).claims.pcs == [Popping(0), PushSawHead(v, 0)];
    assert Run(q, acts[..3]).claims.pcs == [Popping(0), PushSawBoth(v, 0, 1)];
  }

  // ---------- Without TOTAL_ORDER ----------

  /** A step with `TOTAL_ORDER = false`. */
  function LooseStep<V>(q: Mpmc<V>, a: Action<V>): (q': Mpmc<V>)
    ensures q'.ring == q.ring
  {
    if a.Advance? && a.thread < |q.claims.pcs| && !Claimed(q.claims.pcs[a.thread]) then
      q.(claims := Claiming.LooseStep(q.claims, a))
    else Step(q, a)
  }

  function LooseRun<V>(q: Mpmc<V>, acts: seq<Action<V>>): (q': Mpmc<V>)
    ensures q'.ring == q.ring
  {
    if acts == [] then q else LooseStep(LooseRun(q, acts[..|acts| - 1]), acts[|acts| - 1])
  }

  /** With one pushing and one popping thread the queue without TOTAL_ORDER runs exactly as the
      one with it, so everything proved of `Run` holds of it. */
  lemma {:induction false} LooseRunIsRun<V>(q: Mpmc<V>, acts: seq<Action<V>>, i: nat, j: nat)
    requires OwnCounters(q.claims, i, j) && forall k :: 0 <= k < |acts| ==> OneASide(acts[k], i, j)
    ensures LooseRun(q, acts) == Run(q, acts) && OwnCounters(Run(q, acts).claims, i, j)
  {
    if acts != [] {
      var n := |acts| - 1;
      LooseRunIsRun(q, acts[..n], i, j);
      LooseStepIsStep(Run(q, acts[..n]).claims, acts[n], i, j);
      StepIsNext(Run(q, acts[..n]), acts[n]);
      OwnCountersStep(Run(q, acts[..n]).claims, acts[n], Run(q, acts).claims, i, j);
    }
  }

  /** From `new`, whatever the two threads call and however they interleave. */
  lemma LooseIsTotalOrder<V>(ring: Ring, threads: nat, acts: seq<Action<V>>, i: nat, j: nat)
    requires forall k :: 0 <= k < |acts| ==> OneASide(acts[k], i, j)
    ensures LooseRun(New<V>(ring, threads), acts) == Run(New<V>(ring, threads), acts)
  {
    LooseRunIsRun(New<V>(ring, threads), acts, i, j);
  }

  lemma LooseMore<V>(q: Mpmc<V>, acts: seq<Action<V>>, a: Action<V>) returns (more: seq<Action<V>>)
    ensures LooseRun(q, more) == LooseStep(LooseRun(q, acts), a)
  {
    more := acts + [a];
    assert more[..|acts|] == acts;
  }

  /** Thread `i` calls `try_push` and loads both counters. */
  lemma LooseLoads<V>(q: Mpmc<V>, acts: seq<Action<V>>, i: nat, v: V) returns (more: seq<Action<V>>)
    requires var c := LooseRun(q, acts).claims; i < |c.pcs| && c.pcs[i].Idle?
    ensures var s := LooseRun(q, acts);
            LooseRun(q, more) ==
            s.(claims := Move(s.claims, i, PushSawBoth(v, s.claims.head, s.claims.tail)))
  {
    more := LooseMore(q, acts, Begin(i, TryPush(v)));
    more := LooseMore(q, more, Advance(i));
  }

  /** With two pushing threads, on every ring, both can claim position 0; the position that the
      head has also passed belongs to nobody. */
  lemma LooseSharesPosition<V>(ring: Ring, v: V, w: V) returns (acts: seq<Action<V>>)
    ensures var c := LooseRun(New<V>(ring, 2), acts).claims;
            c.head == 2 && c.tail == 0 && c.pcs == [Pushing(v, 0), Pushing(w, 0)]
  {
    var q := New<V>(ring, 2);
    acts := LooseLoads(q, [], 0, v);
    acts := LooseLoads(q, acts, 1, w);
    acts := LooseMore(q, acts, Advance(0));
    acts := LooseMore(q, acts, Advance(1));
  }

  /** Thread `i` calls `try_pop` and loads both counters. */
  lemma LooseLoadsPop<V>(q: Mpmc<V>, acts: seq<Action<V>>, i: nat) returns (more: seq<Action<V>>)
    requires var c := LooseRun(q, acts).claims; i < |c.pcs| && c.pcs[i].Idle?
    ensures var s := LooseRun(q, acts);
            LooseRun(q, more) == s.(claims := Move(s.claims, i, PopSawBoth(s.claims.tail, s.claims.head)))
  {
    more := LooseMore(q, acts, Begin(i, TryPop));
    more := LooseMore(q, more, Advance(i));
  }

  /** Two popping threads can both claim the position of the only element. */
  lemma LooseSharesElement<V>(ring: Ring, v: V) returns (acts: seq<Action<V>>)
    ensures var c := LooseRun(New<V>(ring, 3), acts).claims;
            c.head == 1 && c.tail == 2 && c.pcs == [Pushing(v, 0), Popping(0), Popping(0)]
  {
    var q := New<V>(ring, 3);
    acts := LooseMore(q, [], Begin(0, Push(v)));
    acts := LooseLoadsPop(q, acts, 1);
    acts := LooseLoadsPop(q, acts, 2);
    acts := LooseMore(q, acts, Advance(1));
    acts := LooseMore(q, acts, Advance(2));
  }
}
