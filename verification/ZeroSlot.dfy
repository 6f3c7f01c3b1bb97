/** The claim-then-store protocol of AtomicQueue and AtomicQueueB
    (src/atomic_queue.rs:118-200, 304-386), with zero as the "not there yet" mark.

    A push stores its element into the claimed slot without looking at it; a pop
    waits until the slot of its position is not zero, then zeroes it in a separate
    step.  Positions map to slots by `index & (capacity - 1)`, which is `%`.
    `pushed`, `stored` and `popped` record what was claimed, stored and returned
    under each position; no step consults them.

    Delivery needs that no claim laps an unfinished call at the same slot; `Careful` says
    so, and module `Lapping` shows that nothing weaker would do.
 */
module ZeroSlot {
  import opened Arith
  import opened Claiming
  import opened Options

  const ZERO := 0

  datatype Queue = Queue(
    claims: Claims<int>,
    slots: seq<int>,
    pushed: seq<int>,
    stored: set<nat>,
    popped: map<nat, int>)
  {
    ghost predicate Shaped() {
      1 <= claims.capacity == |slots|
    }
  }

  type ZeroQueue = q: Queue | q.Shaped() witness Queue(Claims(1, 0, 0, []), [0], [], {}, map[])

  function New(capacity: nat, threads: nat): ZeroQueue
    requires 1 <= capacity
  {
    Queue(Init(capacity, threads), seq(capacity, _ => ZERO), [], {}, map[])
  }

  function Index(q: ZeroQueue, position: nat): (i: nat)
    ensures i < |q.slots|
  {
    position % |q.slots|
  }

  /** A step of the claiming layer; a push that claims brings its element along. */
  function Claim(q: ZeroQueue, a: Action<int>): ZeroQueue {
    var c := Claiming.Step(q.claims, a);
    if a.thread < |c.pcs| && c.head > q.claims.head && c.pcs[a.thread].Pushing? then
      q.(claims := c, pushed := q.pushed + [c.pcs[a.thread].v])
    else q.(claims := c)
  }

  /** src/atomic_queue.rs:133-134 */
  function Store(q: ZeroQueue, i: nat, v: int, ticket: nat): ZeroQueue
    requires i < |q.claims.pcs|
  {
    q.(claims := Move(q.claims, i, Idle), slots := q.slots[Index(q, ticket) := v], stored := q.stored + {ticket})
  }

  /** src/atomic_queue.rs:159-164 */
  function Load(q: ZeroQueue, i: nat, ticket: nat): ZeroQueue
    requires i < |q.claims.pcs|
  {
    if q.slots[Index(q, ticket)] == ZERO then q
    else q.(claims := Move(q.claims, i, Took(ticket, q.slots[Index(q, ticket)])))
  }

  /** src/atomic_queue.rs:166-168 */
  function Clear(q: ZeroQueue, i: nat, ticket: nat, v: int): ZeroQueue
    requires i < |q.claims.pcs|
  {
    q.(claims := Move(q.claims, i, Idle), slots := q.slots[Index(q, ticket) := ZERO], popped := q.popped[ticket := v])
  }

  function Step(q: ZeroQueue, a: Action<int>): (q': ZeroQueue)
    ensures q'.claims.capacity == q.claims.capacity && |q'.claims.pcs| == |q.claims.pcs|
  {
    if a.thread >= |q.claims.pcs| then q
    else if a.Begin? then Claim(q, a)
    else
      match q.claims.pcs[a.thread]
      case Pushing(v, ticket) => Store(q, a.thread, v, ticket)
      case Popping(ticket) => Load(q, a.thread, ticket)
      case Took(ticket, v) => Clear(q, a.thread, ticket, v)
      case _ => Claim(q, a)
  }

  function Run(q: ZeroQueue, acts: seq<Action<int>>): (q': ZeroQueue)
    ensures q'.claims.capacity == q.claims.capacity && |q'.claims.pcs| == |q.claims.pcs|
  {
    if acts == [] then q else Step(Run(q, acts[..|acts| - 1]), acts[|acts| - 1])
  }

  // ---------- Claims ----------

  /** The state after thread `i` has claimed the next position for element `v` ... */
  function PushClaimed(q: ZeroQueue, i: nat, v: int): ZeroQueue
    requires i < |q.claims.pcs|
  {
    q.(claims := q.claims.(head := q.claims.head + 1, pcs := q.claims.pcs[i := Pushing(v, q.claims.head)]),
       pushed := q.pushed + [v])
  }

  /** ... or the next position to pop from. */
  function PopClaimed(q: ZeroQueue, i: nat): ZeroQueue
    requires i < |q.claims.pcs|
  {
    q.(claims := q.claims.(tail := q.claims.tail + 1, pcs := q.claims.pcs[i := Popping(q.claims.tail)]))
  }

  ghost predicate PushClaims(q: ZeroQueue, a: Action<int>) {
    Step(q, a).claims.head > q.claims.head
  }

  ghost predicate PopClaims(q: ZeroQueue, a: Action<int>) {
    Step(q, a).claims.tail > q.claims.tail
  }

  /** The element that a claiming push brings. */
  ghost function Brought(q: ZeroQueue, a: Action<int>): int
    requires PushClaims(q, a)
  {
    Step(q, a).claims.pcs[a.thread].v
  }

  /** What the next step of a thread that owns a position does, lapped or not: a push stores its
      element whatever is in the slot, a pop takes what is there unless it is zero, and
      then zeroes the slot whatever is in it by then.  No other slot or thread is touched. */
  lemma SlotStepOutcome(q: ZeroQueue, i: nat)
    requires i < |q.claims.pcs| && (q.claims.pcs[i].Pushing? || q.claims.pcs[i].Popping? || q.claims.pcs[i].Took?)
    ensures var pc, q' := q.claims.pcs[i], Step(q, Advance(i)); var x := Index(q, pc.ticket);
            |q'.slots| == |q.slots| && (forall y :: 0 <= y < |q.slots| && y != x ==> q'.slots[y] == q.slots[y]) &&
            q'.claims.head == q.claims.head && q'.claims.tail == q.claims.tail && q'.pushed == q.pushed &&
            (forall j :: 0 <= j < |q.claims.pcs| && j != i ==> q'.claims.pcs[j] == q.claims.pcs[j]) &&
            (pc.Pushing? ==> q'.slots[x] == pc.v && q'.claims.pcs[i].Idle?) &&
            (pc.Popping? ==> q'.slots[x] == q.slots[x]) &&
            (pc.Popping? ==> q'.claims.pcs[i] == if q.slots[x] == ZERO then pc else Took(pc.ticket, q.slots[x])) &&
            (pc.Took? ==> q'.slots[x] == ZERO && q'.claims.pcs[i].Idle? && q'.popped == q.popped[pc.ticket := pc.taken])
  {
  }

  /** The fetch-and-add of `push` and the compare-and-swap of `try_push` claim alike, and so
      do those of `pop` and `try_pop`; every other step of a thread without a position moves
      only that thread. */
  lemma ClaimsAlike(q: ZeroQueue, a: Action<int>)
    ensures PushClaims(q, a) ==>
      a.thread < |q.claims.pcs| && !Claimed(q.claims.pcs[a.thread]) &&
      Step(q, a) == PushClaimed(q, a.thread, Brought(q, a))
    ensures PopClaims(q, a) ==>
      a.thread < |q.claims.pcs| && !Claimed(q.claims.pcs[a.thread]) && Step(q, a) == PopClaimed(q, a.thread)
    ensures !PushClaims(q, a) && !PopClaims(q, a) && a.thread < |q.claims.pcs| && !Claimed(q.claims.pcs[a.thread]) ==>
      !Claimed(Step(q, a).claims.pcs[a.thread]) &&
      Step(q, a) == q.(claims := Move(q.claims, a.thread, Step(q, a).claims.pcs[a.thread]))
  {
  }

  // ---------- The invariant ----------

  ghost predicate PushHeld(q: ZeroQueue, p: nat) {
    exists i :: 0 <= i < |q.claims.pcs| && q.claims.pcs[i].Pushing? && q.claims.pcs[i].ticket == p
  }

  predicate Takes(pc: Pc<int>) {
    pc.Popping? || pc.Took?
  }

  ghost predicate PopHeld(q: ZeroQueue, p: nat) {
    exists i :: 0 <= i < |q.claims.pcs| && Takes(q.claims.pcs[i]) && q.claims.pcs[i].ticket == p
  }

  ghost predicate ZeroAmong(pushed: seq<int>, capacity: nat, p: nat)
    requires 1 <= capacity
  {
    exists r: nat :: r < |pushed| && r % capacity == p % capacity && pushed[r] == ZERO
  }

  /** A zero has been pushed to the slot of position `p`; no pop will ever take anything there. */
  ghost predicate Dead(q: ZeroQueue, p: nat) {
    ZeroAmong(q.pushed, q.claims.capacity, p)
  }

  /** A zero is followed at its slot by zeros only. */
  ghost predicate ZeroFollows(q: ZeroQueue, p: nat)
    requires p + q.claims.capacity < |q.pushed|
  {
    q.pushed[p] == ZERO ==> q.pushed[p + q.claims.capacity] == ZERO
  }

  /** The records fit the counters, and what lies more than a turn back is done with. */
  ghost predicate History(q: ZeroQueue) {
    |q.pushed| == q.claims.head &&
    (forall p <- q.stored :: p < q.claims.head) &&
    (forall p <- q.popped :: p < q.claims.tail && p in q.stored && q.popped[p] == q.pushed[p] != ZERO) &&
    (forall p: nat :: p + q.claims.capacity < q.claims.head ==> p in q.popped || q.pushed[p] == ZERO) &&
    (forall p: nat :: p + q.claims.capacity < q.claims.head ==> ZeroFollows(q, p)) &&
    (forall p: nat :: p + q.claims.capacity < q.claims.tail ==> p in q.popped || Dead(q, p))
  }

  /** What a thread holds agrees with the records. */
  ghost predicate Holds(q: ZeroQueue, pc: Pc<int>) {
    match pc
    case Idle => true
    case PushSawHead(_, _) => true
    case PushSawBoth(_, _, _) => true
    case Pushing(v, p) => p < q.claims.head && p !in q.stored && p < |q.pushed| && v == q.pushed[p]
    case PopSawTail(_) => true
    case PopSawBoth(_, _) => true
    case Popping(p) => p < q.claims.tail && p !in q.popped
    case Took(p, v) =>
      p < q.claims.tail && p !in q.popped && p in q.stored && p < |q.pushed| && v == q.pushed[p] && v != ZERO
    case Writing(_, _) => false
    case Reading(_) => false
  }

  ghost predicate Threads(q: ZeroQueue) {
    (forall i :: 0 <= i < |q.claims.pcs| ==> Holds(q, q.claims.pcs[i])) &&
    (forall i, j :: 0 <= i < j < |q.claims.pcs| && q.claims.pcs[i].Pushing? && q.claims.pcs[j].Pushing?
       ==> q.claims.pcs[i].ticket != q.claims.pcs[j].ticket) &&
    (forall i, j :: 0 <= i < j < |q.claims.pcs| && Takes(q.claims.pcs[i]) && Takes(q.claims.pcs[j])
       ==> q.claims.pcs[i].ticket != q.claims.pcs[j].ticket) &&
    (forall p: nat :: p < q.claims.head ==> p in q.stored || PushHeld(q, p)) &&
    (forall p: nat :: p < q.claims.tail ==> p in q.popped || PopHeld(q, p))
  }

  /** What the slot of position `p` should hold. */
  ghost function Content(q: ZeroQueue, p: nat): int
    requires p < |q.pushed|
  {
    if p in q.stored && p !in q.popped then q.pushed[p] else ZERO
  }

  ghost predicate Slots(q: ZeroQueue)
    requires |q.pushed| == q.claims.head
  {
    (forall p: nat :: p < q.claims.head <= p + q.claims.capacity ==> q.slots[Index(q, p)] == Content(q, p)) &&
    (forall x :: q.claims.head <= x < |q.slots| ==> q.slots[x] == ZERO)
  }

  ghost predicate Inv(q: ZeroQueue) {
    History(q) && Threads(q) && Slots(q)
  }

  // ---------- Careful runs ----------

  /** The next position may be claimed for a push of `v`: the pop one turn behind has cleared
      the slot, or one more zero goes to a dead slot. */
  ghost predicate PushFree(q: ZeroQueue, v: int) {
    q.claims.head < q.claims.capacity || q.claims.head - q.claims.capacity in q.popped ||
    (v == ZERO && Dead(q, q.claims.head))
  }

  /** Position `p` may be claimed for a pop: the pop one turn behind has returned, or both
      wait at a dead slot. */
  ghost predicate PopFree(q: ZeroQueue, p: nat) {
    p < q.claims.capacity || p - q.claims.capacity in q.popped || Dead(q, p)
  }

  ghost predicate CarefulPush(q: ZeroQueue, a: Action<int>) {
    PushClaims(q, a) ==> PushFree(q, Brought(q, a))
  }

  /** A step of any of the four calls that does not lap an unfinished call. */
  ghost predicate CarefulStep(q: ZeroQueue, a: Action<int>) {
    CarefulPush(q, a) && (PopClaims(q, a) ==> PopFree(q, q.claims.tail))
  }

  ghost predicate Careful(q: ZeroQueue, acts: seq<Action<int>>) {
    forall k :: 0 <= k < |acts| ==> CarefulStep(Run(q, acts[..k]), acts[k])
  }

  // ---------- Preservation, one kind of step at a time ----------

  lemma SameIndex(q: ZeroQueue, p: nat, r: nat)
    requires Index(q, p) == Index(q, r)
    requires 0 - q.claims.capacity < p - r < q.claims.capacity
    ensures p == r
  {
    SameModDistance(p, r, |q.slots|);
  }

  lemma NextIndex(q: ZeroQueue, p: nat)
    ensures Index(q, p + q.claims.capacity) == Index(q, p)
  {
    ModShift(p, 1, |q.slots|);
  }

  /** The slot of a pushed zero holds zero, now and under every later position. */
  lemma {:induction false} ZeroStays(q: ZeroQueue, p: nat)
    requires History(q) && Slots(q) && p < q.claims.head && q.pushed[p] == ZERO
    ensures q.slots[Index(q, p)] == ZERO
    decreases q.claims.head - p
  {
    if q.claims.head <= p + q.claims.capacity {
      assert q.slots[Index(q, p)] == Content(q, p);
    } else {
      assert ZeroFollows(q, p);
      NextIndex(q, p);
      ZeroStays(q, p + q.claims.capacity);
    }
  }

  lemma DeadTogether(q: ZeroQueue, p: nat, t: nat)
    requires t == p + q.claims.capacity
    ensures Dead(q, t) <==> Dead(q, p)
  {
    ModShift(p, 1, q.claims.capacity);
  }

  lemma DeadSlotIsZero(q: ZeroQueue, p: nat)
    requires History(q) && Slots(q) && Dead(q, p)
    ensures q.slots[Index(q, p)] == ZERO
  {
    var r: nat :| r < |q.pushed| && r % q.claims.capacity == p % q.claims.capacity && q.pushed[r] == ZERO;
    ZeroStays(q, r);
    assert Index(q, r) == Index(q, p);
  }

  /** A pop ahead of the pushes finds nothing in its slot. */
  lemma NothingYet(q: ZeroQueue, p: nat)
    requires History(q) && Slots(q) && q.claims.head <= p < q.claims.tail
    ensures q.slots[Index(q, p)] == ZERO
  {
    var cap := q.claims.capacity;
    if p < cap {
      ModSmall(p, cap);
    } else {
      NextIndex(q, p - cap);
      if p - cap in q.popped {
        assert q.slots[Index(q, p - cap)] == Content(q, p - cap);
      } else {
        DeadSlotIsZero(q, p - cap);
      }
    }
  }

  /** What a pop of position `p` that has not taken its element yet finds in the slot. */
  lemma PopSees(q: ZeroQueue, p: nat)
    requires History(q) && Slots(q) && p < q.claims.tail && p !in q.popped
    ensures q.slots[Index(q, p)] == if p in q.stored then q.pushed[p] else ZERO
  {
    if q.claims.head <= p {
      NothingYet(q, p);
    } else if q.claims.head <= p + q.claims.capacity {
      assert q.slots[Index(q, p)] == Content(q, p);
    } else {
      ZeroStays(q, p);
    }
  }

  lemma StoreKeepsInv(q: ZeroQueue, i: nat)
    requires Inv(q) && i < |q.claims.pcs| && q.claims.pcs[i].Pushing?
    ensures Inv(Store(q, i, q.claims.pcs[i].v, q.claims.pcs[i].ticket))
  {
    assert Holds(q, q.claims.pcs[i]);
    StoreKeepsThreads(q, i);
    StoreKeepsHistory(q, i);
    StoreKeepsSlots(q, i);
  }

  lemma StoreKeepsHistory(q: ZeroQueue, i: nat)
    requires Inv(q) && i < |q.claims.pcs| && q.claims.pcs[i].Pushing?
    ensures History(Store(q, i, q.claims.pcs[i].v, q.claims.pcs[i].ticket))
  {
    var q' := Store(q, i, q.claims.pcs[i].v, q.claims.pcs[i].ticket);
    assert Holds(q, q.claims.pcs[i]);
    SameRecords(q, q');
  }

  lemma SameRecords(q: ZeroQueue, q': ZeroQueue)
    requires History(q) && q'.pushed == q.pushed && q'.claims.capacity == q.claims.capacity
    ensures forall p: nat :: p + q.claims.capacity < q.claims.head ==> ZeroFollows(q', p)
    ensures forall p: nat :: Dead(q, p) ==> Dead(q', p)
  {
    forall p: nat | p + q.claims.capacity < q.claims.head ensures ZeroFollows(q', p) {
      assert ZeroFollows(q, p);
    }
  }

  lemma StoreKeepsSlots(q: ZeroQueue, i: nat)
    requires Inv(q) && i < |q.claims.pcs| && q.claims.pcs[i].Pushing?
    ensures Slots(Store(q, i, q.claims.pcs[i].v, q.claims.pcs[i].ticket))
  {
    var t, v := q.claims.pcs[i].ticket, q.claims.pcs[i].v;
    var q' := Store(q, i, v, t);
    assert Holds(q, q.claims.pcs[i]);
    if v == ZERO {
      ZeroStays(q, t);
      assert q'.slots == q.slots;
    }
    forall p: nat | p < q.claims.head <= p + q.claims.capacity
      ensures q'.slots[Index(q', p)] == Content(q', p)
    {
      assert q.slots[Index(q, p)] == Content(q, p);
      if v != ZERO && Index(q, p) == Index(q, t) {
        SameIndex(q, p, t);
      }
    }
    forall x | q.claims.head <= x < |q.slots| ensures q'.slots[x] == ZERO {
      ModSmall(t, |q.slots|);
    }
  }

  lemma StoreKeepsThreads(q: ZeroQueue, i: nat)
    requires Inv(q) && i < |q.claims.pcs| && q.claims.pcs[i].Pushing?
    ensures Threads(Store(q, i, q.claims.pcs[i].v, q.claims.pcs[i].ticket))
  {
    var t := q.claims.pcs[i].ticket;
    var q' := Store(q, i, q.claims.pcs[i].v, t);
    forall j | 0 <= j < |q'.claims.pcs| ensures Holds(q', q'.claims.pcs[j]) {
      assert Holds(q, q.claims.pcs[j]);
    }
    OthersKeepHolding(q, q', i);
  }

  /** Only thread `i` moved, and it let go of a position that is now on record. */
  lemma OthersKeepHolding(q: ZeroQueue, q': ZeroQueue, i: nat)
    requires i < |q.claims.pcs| && Claimed(q.claims.pcs[i])
    requires |q'.claims.pcs| == |q.claims.pcs|
    requires forall j :: 0 <= j < |q.claims.pcs| && j != i ==> q'.claims.pcs[j] == q.claims.pcs[j]
    ensures forall p :: PushHeld(q, p) ==> PushHeld(q', p) || (q.claims.pcs[i].Pushing? && p == q.claims.pcs[i].ticket)
    ensures forall p :: PopHeld(q, p) ==> PopHeld(q', p) || (Takes(q.claims.pcs[i]) && p == q.claims.pcs[i].ticket)
  {
  }

  lemma LoadKeepsInv(q: ZeroQueue, i: nat)
    requires Inv(q) && i < |q.claims.pcs| && q.claims.pcs[i].Popping?
    ensures Inv(Load(q, i, q.claims.pcs[i].ticket))
  {
    var q' := Load(q, i, q.claims.pcs[i].ticket);
    if q' != q {
      LoadKeepsThreads(q, i);
      SameRecords(q, q');
      forall p: nat | p < q.claims.head <= p + q.claims.capacity
        ensures q'.slots[Index(q', p)] == Content(q', p)
      {
        assert q.slots[Index(q, p)] == Content(q, p);
      }
    }
  }

  lemma LoadKeepsThreads(q: ZeroQueue, i: nat)
    requires Inv(q) && i < |q.claims.pcs| && q.claims.pcs[i].Popping?
    requires q.slots[Index(q, q.claims.pcs[i].ticket)] != ZERO
    ensures Threads(Load(q, i, q.claims.pcs[i].ticket))
  {
    var t := q.claims.pcs[i].ticket;
    var q' := Load(q, i, t);
    assert Holds(q, q.claims.pcs[i]);
    PopSees(q, t);
    forall j | 0 <= j < |q'.claims.pcs| ensures Holds(q', q'.claims.pcs[j]) {
      assert Holds(q, q.claims.pcs[j]);
    }
    HandoverKeepsHolding(q, q', i, t);
  }

  lemma HandoverKeepsHolding(q: ZeroQueue, q': ZeroQueue, i: nat, t: nat)
    requires i < |q.claims.pcs| && q.claims.pcs[i] == Popping(t)
    requires |q'.claims.pcs| == |q.claims.pcs|
    requires forall j :: 0 <= j < |q.claims.pcs| && j != i ==> q'.claims.pcs[j] == q.claims.pcs[j]
    requires Takes(q'.claims.pcs[i]) && q'.claims.pcs[i].ticket == t
    ensures forall p :: PushHeld(q, p) ==> PushHeld(q', p)
    ensures forall p :: PopHeld(q, p) ==> PopHeld(q', p)
  {
  }

  lemma ClearKeepsInv(q: ZeroQueue, i: nat)
    requires Inv(q) && i < |q.claims.pcs| && q.claims.pcs[i].Took?
    ensures Inv(Clear(q, i, q.claims.pcs[i].ticket, q.claims.pcs[i].taken))
  {
    var t := q.claims.pcs[i].ticket;
    var q' := Clear(q, i, t, q.claims.pcs[i].taken);
    assert Holds(q, q.claims.pcs[i]);
    ClearKeepsThreads(q, i);
    SameRecords(q, q');
    forall p: nat | p < q.claims.head <= p + q.claims.capacity
      ensures q'.slots[Index(q', p)] == Content(q', p)
    {
      if Index(q, p) == Index(q, t) {
        SameIndex(q, p, t);
      }
    }
    forall x | q.claims.head <= x < |q.slots| ensures q'.slots[x] == ZERO {
    }
  }

  lemma ClearKeepsThreads(q: ZeroQueue, i: nat)
    requires Inv(q) && i < |q.claims.pcs| && q.claims.pcs[i].Took?
    ensures Threads(Clear(q, i, q.claims.pcs[i].ticket, q.claims.pcs[i].taken))
  {
    var t := q.claims.pcs[i].ticket;
    var q' := Clear(q, i, t, q.claims.pcs[i].taken);
    forall j | 0 <= j < |q'.claims.pcs| ensures Holds(q', q'.claims.pcs[j]) {
      assert Holds(q, q.claims.pcs[j]);
    }
    OthersKeepHolding(q, q', i);
  }

  /** A thread that owns no position moves to a place where it owns none. */
  lemma QuietKeepsInv(q: ZeroQueue, i: nat, pc: Pc<int>)
    requires Inv(q) && i < |q.claims.pcs|
    requires !Claimed(q.claims.pcs[i]) && !Claimed(pc)
    ensures Inv(q.(claims := Move(q.claims, i, pc)))
  {
    var q' := q.(claims := Move(q.claims, i, pc));
    forall j | 0 <= j < |q'.claims.pcs| ensures Holds(q', q'.claims.pcs[j]) {
      assert Holds(q, q.claims.pcs[j]);
    }
    NewcomerKeepsHolding(q, q', i);
    SameRecords(q, q');
    forall p: nat | p < q.claims.head <= p + q.claims.capacity
      ensures q'.slots[Index(q', p)] == Content(q', p)
    {
      assert q.slots[Index(q, p)] == Content(q, p);
    }
  }

  lemma NewcomerKeepsHolding(q: ZeroQueue, q': ZeroQueue, i: nat)
    requires i < |q.claims.pcs| && !Claimed(q.claims.pcs[i])
    requires |q'.claims.pcs| == |q.claims.pcs|
    requires forall j :: 0 <= j < |q.claims.pcs| && j != i ==> q'.claims.pcs[j] == q.claims.pcs[j]
    ensures forall p :: PushHeld(q, p) ==> PushHeld(q', p)
    ensures forall p :: PopHeld(q, p) ==> PopHeld(q', p)
  {
  }

  lemma TicketsAreOld(q: ZeroQueue)
    requires Threads(q)
    ensures forall j :: 0 <= j < |q.claims.pcs| && q.claims.pcs[j].Pushing? ==>
              q.claims.pcs[j].ticket < q.claims.head
    ensures forall j :: 0 <= j < |q.claims.pcs| && Takes(q.claims.pcs[j]) ==>
              q.claims.pcs[j].ticket < q.claims.tail
  {
    assert forall j :: 0 <= j < |q.claims.pcs| ==> Holds(q, q.claims.pcs[j]);
  }

  lemma PushClaimKeepsThreads(q: ZeroQueue, i: nat, v: int)
    requires Inv(q) && i < |q.claims.pcs| && !Claimed(q.claims.pcs[i])
    ensures Threads(PushClaimed(q, i, v))
  {
    var q' := PushClaimed(q, i, v);
    forall j | 0 <= j < |q'.claims.pcs| ensures Holds(q', q'.claims.pcs[j]) {
      assert Holds(q, q.claims.pcs[j]);
    }
    TicketsAreOld(q);
    NewcomerKeepsHolding(q, q', i);
    assert PushHeld(q', q.claims.head) by {
      assert q'.claims.pcs[i].Pushing?;
    }
  }

  /** At a dead slot the last element pushed is a zero. */
  lemma {:induction false} DeadReaches(q: ZeroQueue, r: nat, p: nat)
    requires History(q) && r <= p < q.claims.head && Index(q, r) == Index(q, p) && q.pushed[r] == ZERO
    ensures q.pushed[p] == ZERO
    decreases p
  {
    if r != p {
      if p < r + q.claims.capacity {
        SameIndex(q, p, r);
      }
      NextIndex(q, p - q.claims.capacity);
      DeadReaches(q, r, p - q.claims.capacity);
      assert ZeroFollows(q, p - q.claims.capacity);
    }
  }

  lemma DeadTurnBehind(q: ZeroQueue)
    requires History(q) && q.claims.capacity <= q.claims.head && Dead(q, q.claims.head)
    ensures q.pushed[q.claims.head - q.claims.capacity] == ZERO
  {
    var h, cap := q.claims.head, q.claims.capacity;
    var r: nat :| r < |q.pushed| && r % cap == h % cap && q.pushed[r] == ZERO;
    assert Index(q, r) == Index(q, h);
    if h < r + cap {
      SameIndex(q, h, r);
    }
    NextIndex(q, h - cap);
    DeadReaches(q, r, h - cap);
  }

  lemma FollowsStill(q: ZeroQueue, i: nat, v: int, p: nat)
    requires i < |q.claims.pcs| && p + q.claims.capacity < |q.pushed| && ZeroFollows(q, p)
    ensures ZeroFollows(PushClaimed(q, i, v), p)
  {
  }

  /** The position one turn behind the one claimed. */
  lemma TurnBehindFollows(q: ZeroQueue, i: nat, v: int, p: nat)
    requires History(q) && i < |q.claims.pcs| && PushFree(q, v) && p + q.claims.capacity == q.claims.head
    ensures p in q.popped || q.pushed[p] == ZERO
    ensures ZeroFollows(PushClaimed(q, i, v), p)
  {
    if p in q.popped {
      assert q.pushed[p] != ZERO;
    } else {
      DeadTurnBehind(q);
    }
  }

  lemma PushClaimFollows(q: ZeroQueue, i: nat, v: int, p: nat)
    requires History(q) && i < |q.claims.pcs| && PushFree(q, v) && p + q.claims.capacity <= q.claims.head
    ensures p in q.popped || q.pushed[p] == ZERO
    ensures ZeroFollows(PushClaimed(q, i, v), p)
  {
    if p + q.claims.capacity == q.claims.head {
      TurnBehindFollows(q, i, v, p);
    } else {
      assert ZeroFollows(q, p);
      FollowsStill(q, i, v, p);
    }
  }

  lemma PushClaimKeepsHistory(q: ZeroQueue, i: nat, v: int)
    requires Inv(q) && i < |q.claims.pcs| && PushFree(q, v)
    ensures History(PushClaimed(q, i, v))
  {
    var q' := PushClaimed(q, i, v);
    MoreIsDead(q, v);
    AllFollow(q, i, v);
    assert forall p <- q'.popped :: q'.popped[p] == q'.pushed[p];
  }

  lemma AllFollow(q: ZeroQueue, i: nat, v: int)
    requires History(q) && i < |q.claims.pcs| && PushFree(q, v)
    ensures var q' := PushClaimed(q, i, v);
            (forall p: nat :: p + q.claims.capacity <= q.claims.head ==> p in q'.popped || q'.pushed[p] == ZERO) &&
            (forall p: nat :: p + q.claims.capacity <= q.claims.head ==> ZeroFollows(q', p))
  {
    var q' := PushClaimed(q, i, v);
    forall p: nat | p + q.claims.capacity <= q.claims.head ensures p in q'.popped || q'.pushed[p] == ZERO {
      PushClaimFollows(q, i, v, p);
    }
    forall p: nat | p + q.claims.capacity <= q.claims.head ensures ZeroFollows(q', p) {
      PushClaimFollows(q, i, v, p);
    }
  }

  lemma MoreIsDead(q: ZeroQueue, v: int)
    ensures forall p: nat :: Dead(q, p) ==> ZeroAmong(q.pushed + [v], q.claims.capacity, p)
  {
    forall p: nat | Dead(q, p) ensures ZeroAmong(q.pushed + [v], q.claims.capacity, p) {
      var r: nat :| r < |q.pushed| && r % q.claims.capacity == p % q.claims.capacity && q.pushed[r] == ZERO;
      assert (q.pushed + [v])[r] == ZERO;
    }
  }

  lemma PushClaimKeepsSlots(q: ZeroQueue, i: nat, v: int)
    requires Inv(q) && i < |q.claims.pcs| && PushFree(q, v)
    ensures Slots(PushClaimed(q, i, v))
  {
    var q' := PushClaimed(q, i, v);
    var h, cap := q.claims.head, q.claims.capacity;
    forall p: nat | p < h + 1 <= p + cap ensures q'.slots[Index(q', p)] == Content(q', p) {
      if p < h {
        assert q.slots[Index(q, p)] == Content(q, p);
      } else if h < cap {
        ModSmall(h, cap);
      } else {
        NextIndex(q, h - cap);
        if h - cap in q.popped {
          assert q.slots[Index(q, h - cap)] == Content(q, h - cap);
        } else {
          DeadSlotIsZero(q, h);
        }
      }
    }
  }

  lemma PushClaimKeepsInv(q: ZeroQueue, i: nat, v: int)
    requires Inv(q) && i < |q.claims.pcs| && !Claimed(q.claims.pcs[i]) && PushFree(q, v)
    ensures Inv(PushClaimed(q, i, v))
  {
    PushClaimKeepsThreads(q, i, v);
    PushClaimKeepsHistory(q, i, v);
    PushClaimKeepsSlots(q, i, v);
  }

  lemma PopClaimKeepsInv(q: ZeroQueue, i: nat)
    requires Inv(q) && i < |q.claims.pcs| && !Claimed(q.claims.pcs[i]) && PopFree(q, q.claims.tail)
    ensures Inv(PopClaimed(q, i))
  {
    var q' := PopClaimed(q, i);
    PopClaimKeepsThreads(q, i);
    PopClaimKeepsHistory(q, i);
    forall p: nat | p < q.claims.head <= p + q.claims.capacity
      ensures q'.slots[Index(q', p)] == Content(q', p)
    {
      assert q.slots[Index(q, p)] == Content(q, p);
    }
  }

  lemma PopClaimKeepsThreads(q: ZeroQueue, i: nat)
    requires Inv(q) && i < |q.claims.pcs| && !Claimed(q.claims.pcs[i])
    ensures Threads(PopClaimed(q, i))
  {
    var q' := PopClaimed(q, i);
    TicketsAreOld(q);
    forall j | 0 <= j < |q'.claims.pcs| ensures Holds(q', q'.claims.pcs[j]) {
      assert Holds(q, q.claims.pcs[j]);
    }
    NewcomerKeepsHolding(q, q', i);
    assert Takes(q'.claims.pcs[i]);
    assert PopHeld(q', q.claims.tail);
  }

  lemma TurnBehindPops(q: ZeroQueue, p: nat)
    requires PopFree(q, q.claims.tail) && p + q.claims.capacity == q.claims.tail
    ensures p in q.popped || Dead(q, p)
  {
    DeadTogether(q, p, q.claims.tail);
  }

  lemma PopClaimKeepsHistory(q: ZeroQueue, i: nat)
    requires History(q) && i < |q.claims.pcs| && PopFree(q, q.claims.tail)
    ensures History(PopClaimed(q, i))
  {
    var q' := PopClaimed(q, i);
    SameRecords(q, q');
    forall p: nat | p + q.claims.capacity < q.claims.tail + 1 ensures p in q'.popped || Dead(q', p) {
      if p + q.claims.capacity == q.claims.tail {
        TurnBehindPops(q, p);
      }
      assert p in q.popped || Dead(q, p);
    }
  }

  lemma InvStep(q: ZeroQueue, a: Action<int>)
    requires Inv(q) && CarefulStep(q, a)
    ensures Inv(Step(q, a))
  {
    if a.thread < |q.claims.pcs| {
      var i := a.thread;
      assert Holds(q, q.claims.pcs[i]);
      if a.Begin? && Claimed(q.claims.pcs[i]) {
      } else if Claimed(q.claims.pcs[i]) {
        SlotStepKeepsInv(q, i);
      } else {
        ClaimsAlike(q, a);
        if PushClaims(q, a) {
          PushClaimKeepsInv(q, i, Brought(q, a));
        } else if PopClaims(q, a) {
          PopClaimKeepsInv(q, i);
        } else {
          QuietKeepsInv(q, i, Step(q, a).claims.pcs[i]);
        }
      }
    }
  }

  lemma SlotSteps(q: ZeroQueue, i: nat)
    requires i < |q.claims.pcs|
    ensures forall v, t :: q.claims.pcs[i] == Pushing(v, t) ==> Step(q, Advance(i)) == Store(q, i, v, t)
    ensures forall t :: q.claims.pcs[i] == Popping(t) ==> Step(q, Advance(i)) == Load(q, i, t)
    ensures forall t, v :: q.claims.pcs[i] == Took(t, v) ==> Step(q, Advance(i)) == Clear(q, i, t, v)
  {
  }

  lemma SlotStepKeepsInv(q: ZeroQueue, i: nat)
    requires Inv(q) && i < |q.claims.pcs| && Claimed(q.claims.pcs[i])
    ensures Inv(Step(q, Advance(i)))
  {
    SlotSteps(q, i);
    assert Holds(q, q.claims.pcs[i]);
    match q.claims.pcs[i]
    case Pushing(_, _) => StoreKeepsInv(q, i);
    case Popping(_) => LoadKeepsInv(q, i);
    case Took(_, _) => ClearKeepsInv(q, i);
  }

  lemma InvAtStart(capacity: nat, threads: nat)
    requires 1 <= capacity
    ensures Inv(New(capacity, threads))
  {
  }

  lemma {:induction false} InvHolds(q: ZeroQueue, acts: seq<Action<int>>)
    requires Inv(q) && Careful(q, acts)
    ensures Inv(Run(q, acts))
  {
    if acts != [] {
      var n := |acts| - 1;
      CarefulPrefix(q, acts, n);
      InvHolds(q, acts[..n]);
      assert CarefulStep(Run(q, acts[..n]), acts[n]);
      InvStep(Run(q, acts[..n]), acts[n]);
    }
  }

  lemma InvAlong(q: ZeroQueue, acts: seq<Action<int>>, n: nat)
    requires Inv(q) && Careful(q, acts) && n <= |acts|
    ensures Inv(Run(q, acts[..n]))
  {
    CarefulPrefix(q, acts, n);
    InvHolds(q, acts[..n]);
  }

  lemma RunNext(q: ZeroQueue, acts: seq<Action<int>>, n: nat)
    requires n < |acts|
    ensures Run(q, acts[..n + 1]) == Step(Run(q, acts[..n]), acts[n])
  {
    assert acts[..n + 1][..n] == acts[..n];
  }

  lemma CarefulPrefix(q: ZeroQueue, acts: seq<Action<int>>, n: nat)
    requires Careful(q, acts) && n <= |acts|
    ensures Careful(q, acts[..n])
  {
    forall k | 0 <= k < n ensures CarefulStep(Run(q, acts[..n][..k]), acts[..n][k]) {
      assert acts[..n][..k] == acts[..k];
      assert CarefulStep(Run(q, acts[..k]), acts[k]);
    }
  }

  // ---------- The claiming part of a run ----------

  function States(q: ZeroQueue, acts: seq<Action<int>>): seq<Claims<int>> {
    seq(|acts| + 1, k requires 0 <= k <= |acts| => Run(q, acts[..k]).claims)
  }

  lemma StepIsNext(q: ZeroQueue, a: Action<int>)
    ensures Next(q.claims, a, Step(q, a).claims)
  {
  }

  /** The claiming states of every run form a trace of the claiming layer under the same schedule. */
  lemma RunsAreTraces(q: ZeroQueue, acts: seq<Action<int>>)
    ensures Trace(States(q, acts), acts) && States(q, acts)[|acts|] == Run(q, acts).claims
  {
    assert acts[..|acts|] == acts;
    forall k | 0 <= k < |acts| ensures Next(States(q, acts)[k], acts[k], States(q, acts)[k + 1]) {
      RunNext(q, acts, k);
      StepIsNext(Run(q, acts[..k]), acts[k]);
    }
  }

  function Somes(elements: seq<int>): seq<Option<int>> {
    seq(|elements|, k requires 0 <= k < |elements| => Some(elements[k]))
  }

  /** `pushed` is what the calls that claimed were given, in the order of their claims. */
  lemma {:induction false} PushedAreTheArguments(capacity: nat, threads: nat, acts: seq<Action<int>>, n: nat)
    requires 1 <= capacity && n <= |acts|
    ensures var q := New(capacity, threads);
            Somes(Run(q, acts[..n]).pushed) == Arguments(States(q, acts), acts, n)
    decreases n
  {
    if n > 0 {
      PushedAreTheArguments(capacity, threads, acts, n - 1);
      NextArgument(capacity, threads, acts, n);
    }
  }

  lemma NextArgument(capacity: nat, threads: nat, acts: seq<Action<int>>, n: nat)
    requires 1 <= capacity && 1 <= n <= |acts|
    ensures var q := New(capacity, threads); var states := States(q, acts);
            Somes(Run(q, acts[..n]).pushed) ==
            Somes(Run(q, acts[..n - 1]).pushed) +
            if states[n].head == states[n - 1].head then [] else [LastArgument(states, acts, acts[n - 1].thread, n)]
  {
    var q := New(capacity, threads);
    var before, after := Run(q, acts[..n - 1]), Run(q, acts[..n]);
    assert States(q, acts)[n - 1] == before.claims && States(q, acts)[n] == after.claims;
    if PushClaims(before, acts[n - 1]) {
      var v := ArgumentOfClaim(q, acts, n);
      SomesGrow(before.pushed, v);
    } else {
      NothingClaimed(q, acts, n);
    }
  }

  lemma NothingClaimed(q: ZeroQueue, acts: seq<Action<int>>, n: nat)
    requires 1 <= n <= |acts| && !PushClaims(Run(q, acts[..n - 1]), acts[n - 1])
    ensures Run(q, acts[..n]).pushed == Run(q, acts[..n - 1]).pushed
    ensures Run(q, acts[..n]).claims.head == Run(q, acts[..n - 1]).claims.head
  {
    RunNext(q, acts, n - 1);
    PushedGrowsByClaims(Run(q, acts[..n - 1]), acts[n - 1]);
  }

  lemma SomesGrow(elements: seq<int>, v: int)
    ensures Somes(elements + [v]) == Somes(elements) + [Some(v)]
  {
  }

  lemma ArgumentOfClaim(q: ZeroQueue, acts: seq<Action<int>>, n: nat) returns (v: int)
    requires 1 <= n <= |acts| && PushClaims(Run(q, acts[..n - 1]), acts[n - 1])
    requires forall i :: 0 <= i < |q.claims.pcs| ==> q.claims.pcs[i].Idle?
    ensures LastArgument(States(q, acts), acts, acts[n - 1].thread, n) == Some(v)
    ensures Run(q, acts[..n]).pushed == Run(q, acts[..n - 1]).pushed + [v]
    ensures Run(q, acts[..n]).claims.head > Run(q, acts[..n - 1]).claims.head
  {
    var before, a := Run(q, acts[..n - 1]), acts[n - 1];
    RunNext(q, acts, n - 1);
    PushedGrowsByClaims(before, a);
    RunsAreTraces(q, acts);
    CarriesItsArgument(States(q, acts), acts, a.thread, n);
    v := Step(before, a).claims.pcs[a.thread].v;
  }

  lemma PushedGrowsByClaims(q: ZeroQueue, a: Action<int>)
    ensures PushClaims(q, a) ==>
      a.thread < |q.claims.pcs| && Step(q, a).pushed == q.pushed + [Step(q, a).claims.pcs[a.thread].v] &&
      Step(q, a).claims.pcs[a.thread].Pushing?
    ensures !PushClaims(q, a) ==> Step(q, a).pushed == q.pushed && Step(q, a).claims.head == q.claims.head
  {
  }

  /** `0 <= head - tail <= capacity` at every moment of every run of `try_` calls, lapping or not. */
  lemma TryCallsStayBounded(capacity: nat, threads: nat, acts: seq<Action<int>>)
    requires 1 <= capacity && NoBlockingPush(acts) && NoBlockingPop(acts)
    ensures var q := Run(New(capacity, threads), acts);
            q.claims.tail <= q.claims.head <= q.claims.tail + capacity
  {
    var q := New(capacity, threads);
    RunsAreTraces(q, acts);
    CounterBound(capacity, threads, States(q, acts), acts, |acts|);
  }

  /** A `try_push` of thread `i` that spans steps `a` to `b` of a run of `try_` calls and is
      refused met, in between, a full queue or another thread's push claim. */
  lemma RefusedPush(capacity: nat, threads: nat, acts: seq<Action<int>>, i: nat, a: nat, b: nat)
    requires 1 <= capacity && NoBlockingPush(acts) && NoBlockingPop(acts)
    requires var states := States(New(capacity, threads), acts);
             TryPushSpans(states, acts, i, a, b) && states[b + 1].pcs[i].Idle?
    ensures var states := States(New(capacity, threads), acts);
            (exists m :: a < m <= b && states[m].head - states[m].tail == capacity) ||
            (exists k :: a <= k < b && OtherPushClaims(states, acts, i, k))
  {
    RefusedPushIsJustified(capacity, threads, States(New(capacity, threads), acts), acts, i, a, b);
  }

  /** A `try_pop` that returns nothing met, in between, an empty queue or another thread's
      pop claim, in every run. */
  lemma RefusedPop(q: ZeroQueue, acts: seq<Action<int>>, i: nat, a: nat, b: nat)
    requires TryPopSpans(States(q, acts), acts, i, a, b) && States(q, acts)[b + 1].pcs[i].Idle?
    ensures var states := States(q, acts);
            (exists m :: a < m <= b && states[m].head == states[m].tail) ||
            (exists k :: a <= k < b && OtherPopClaims(states, acts, i, k))
  {
    RefusedPopIsJustified(States(q, acts), acts, i, a, b);
  }

  // ---------- Delivery ----------

  /** Every element handed out is the one pushed under its position, and every element
      stored and not handed out yet is still in its slot. */
  ghost predicate Intact(q: ZeroQueue) {
    (forall p <- q.popped :: p < |q.pushed| && q.popped[p] == q.pushed[p]) &&
    (forall p <- q.stored :: p < |q.pushed| && (p !in q.popped ==> q.slots[Index(q, p)] == q.pushed[p]))
  }

  lemma InvIsIntact(q: ZeroQueue)
    requires Inv(q)
    ensures Intact(q)
  {
    forall p <- q.stored | p !in q.popped ensures q.slots[Index(q, p)] == q.pushed[p] {
      if q.claims.head <= p + q.claims.capacity {
        assert q.slots[Index(q, p)] == Content(q, p);
      } else {
        ZeroStays(q, p);
      }
    }
  }

  /** In every careful run of any mix of the four calls, whatever the interleaving and the
      elements: nothing stored is lost, each pop returns the element pushed under its
      position, and no two pops hold one position or one that has been returned.  Only at
      dead slots do the counters move more than one turn apart. */
  lemma Delivery(capacity: nat, threads: nat, acts: seq<Action<int>>)
    requires 1 <= capacity && Careful(New(capacity, threads), acts)
    ensures var q := Run(New(capacity, threads), acts);
            Intact(q) &&
            (forall i :: 0 <= i < |q.claims.pcs| && Takes(q.claims.pcs[i]) ==> q.claims.pcs[i].ticket !in q.popped) &&
            (forall i, j :: 0 <= i < j < |q.claims.pcs| && Takes(q.claims.pcs[i]) && Takes(q.claims.pcs[j]) ==>
               q.claims.pcs[i].ticket != q.claims.pcs[j].ticket) &&
            (q.claims.head <= q.claims.tail + capacity || Dead(q, q.claims.tail)) &&
            (q.claims.tail <= q.claims.head + capacity || Dead(q, q.claims.head))
  {
    var q := Run(New(capacity, threads), acts);
    InvAtStart(capacity, threads);
    InvHolds(New(capacity, threads), acts);
    InvIsIntact(q);
    assert q.claims.tail !in q.popped && q.claims.head !in q.popped;
    forall i | 0 <= i < |q.claims.pcs| && Takes(q.claims.pcs[i]) ensures q.claims.pcs[i].ticket !in q.popped {
      assert Holds(q, q.claims.pcs[i]);
    }
    if q.claims.tail + capacity < q.claims.head {
      assert q.pushed[q.claims.tail] == ZERO;
      assert Dead(q, q.claims.tail);
    }
  }

  /** So each pop of a careful run returns what the call that claimed its position was given. */
  lemma DeliversTheArguments(capacity: nat, threads: nat, acts: seq<Action<int>>)
    requires 1 <= capacity && Careful(New(capacity, threads), acts)
    ensures var q := New(capacity, threads); var given := Arguments(States(q, acts), acts, |acts|);
            forall p <- Run(q, acts).popped :: p < |given| && given[p] == Some(Run(q, acts).popped[p])
  {
    Delivery(capacity, threads, acts);
    PushedAreTheArguments(capacity, threads, acts, |acts|);
    assert acts[..|acts|] == acts;
  }

  /** Every claim comes after the call one turn behind has cleared the slot. */
  ghost predicate LapFree(q: ZeroQueue, acts: seq<Action<int>>) {
    forall k :: 0 <= k < |acts| ==> LapFreeStep(Run(q, acts[..k]), acts[k])
  }

  ghost predicate LapFreeStep(q: ZeroQueue, a: Action<int>) {
    (PushClaims(q, a) ==> q.claims.head < q.claims.capacity || q.claims.head - q.claims.capacity in q.popped) &&
    (PopClaims(q, a) ==> q.claims.tail < q.claims.capacity || q.claims.tail - q.claims.capacity in q.popped)
  }

  lemma LapFreeIsCareful(q: ZeroQueue, acts: seq<Action<int>>)
    requires LapFree(q, acts)
    ensures Careful(q, acts)
  {
    forall k | 0 <= k < |acts| ensures CarefulStep(Run(q, acts[..k]), acts[k]) {
      assert LapFreeStep(Run(q, acts[..k]), acts[k]);
      LapFreeStepIsCareful(Run(q, acts[..k]), acts[k]);
    }
  }

  lemma LapFreeStepIsCareful(q: ZeroQueue, a: Action<int>)
    requires LapFreeStep(q, a)
    ensures CarefulStep(q, a)
  {
  }

  /** Such runs are careful, and with zero elements too their counters stay within one turn. */
  lemma LapFreeStaysWithinATurn(capacity: nat, threads: nat, acts: seq<Action<int>>)
    requires 1 <= capacity && LapFree(New(capacity, threads), acts)
    ensures Careful(New(capacity, threads), acts)
    ensures WithinATurn(Run(New(capacity, threads), acts).claims)
  {
    InvAtStart(capacity, threads);
    LapFreeIsCareful(New(capacity, threads), acts);
    WithinATurnUpTo(New(capacity, threads), acts, |acts|);
    assert acts[..|acts|] == acts;
  }

  predicate WithinATurn(c: Claims<int>) {
    c.head <= c.tail + c.capacity && c.tail <= c.head + c.capacity
  }

  lemma {:induction false} WithinATurnUpTo(q: ZeroQueue, acts: seq<Action<int>>, n: nat)
    requires Inv(q) && WithinATurn(q.claims) && LapFree(q, acts) && Careful(q, acts) && n <= |acts|
    ensures WithinATurn(Run(q, acts[..n]).claims)
    decreases n
  {
    if n > 0 {
      WithinATurnUpTo(q, acts, n - 1);
      InvAlong(q, acts, n - 1);
      WithinATurnNext(q, acts, n - 1);
    }
  }

  lemma WithinATurnNext(q: ZeroQueue, acts: seq<Action<int>>, n: nat)
    requires n < |acts| && LapFree(q, acts)
    requires History(Run(q, acts[..n])) && WithinATurn(Run(q, acts[..n]).claims)
    ensures WithinATurn(Run(q, acts[..n + 1]).claims)
  {
    RunNext(q, acts, n);
    assert LapFreeStep(Run(q, acts[..n]), acts[n]);
    LapFreeStepStays(Run(q, acts[..n]), acts[n]);
  }

  lemma LapFreeStepStays(q: ZeroQueue, a: Action<int>)
    requires History(q) && LapFreeStep(q, a) && WithinATurn(q.claims)
    ensures WithinATurn(Step(q, a).claims)
  {
    ClaimsAlike(q, a);
  }

  /** Consumers that only use `try_pop` lap no pop: with them a run is careful as soon as its
      push claims are, and the tail stays behind the head. */
  lemma TryPopsAreCareful(capacity: nat, threads: nat, acts: seq<Action<int>>)
    requires 1 <= capacity && NoBlockingPop(acts) && CarefulPushes(New(capacity, threads), acts)
    ensures Careful(New(capacity, threads), acts)
    ensures Run(New(capacity, threads), acts).claims.tail <= Run(New(capacity, threads), acts).claims.head
  {
    var q0 := New(capacity, threads);
    InvAtStart(capacity, threads);
    forall k | 0 <= k < |acts| ensures CarefulStep(Run(q0, acts[..k]), acts[k]) {
      InvWithTryPops(q0, acts, k);
      NextIsCareful(q0, acts, k);
    }
    TailBehindHead(q0, acts, |acts|);
    assert acts[..|acts|] == acts;
  }

  ghost predicate CarefulPushes(q: ZeroQueue, acts: seq<Action<int>>) {
    forall k :: 0 <= k < |acts| ==> CarefulPush(Run(q, acts[..k]), acts[k])
  }

  lemma TailBehindHead(q: ZeroQueue, acts: seq<Action<int>>, n: nat)
    requires PopBounded(q.claims) && NoBlockingPop(acts) && n <= |acts|
    ensures PopBounded(Run(q, acts[..n]).claims)
  {
    RunsAreTraces(q, acts);
    assert States(q, acts)[0] == q.claims;
    PopBoundHolds(States(q, acts), acts, n);
  }

  lemma NextIsCareful(q: ZeroQueue, acts: seq<Action<int>>, n: nat)
    requires PopBounded(q.claims) && NoBlockingPop(acts) && CarefulPushes(q, acts) && n < |acts|
    requires Inv(Run(q, acts[..n]))
    ensures CarefulStep(Run(q, acts[..n]), acts[n])
  {
    TailBehindHead(q, acts, n);
    assert CarefulPush(Run(q, acts[..n]), acts[n]);
    if PopClaims(Run(q, acts[..n]), acts[n]) {
      TryPopIsFree(Run(q, acts[..n]), acts[n]);
    }
  }

  lemma {:induction false} InvWithTryPops(q: ZeroQueue, acts: seq<Action<int>>, n: nat)
    requires Inv(q) && PopBounded(q.claims) && NoBlockingPop(acts) && CarefulPushes(q, acts) && n <= |acts|
    ensures Inv(Run(q, acts[..n]))
    decreases n
  {
    if n > 0 {
      InvWithTryPops(q, acts, n - 1);
      NextIsCareful(q, acts, n - 1);
      InvStep(Run(q, acts[..n - 1]), acts[n - 1]);
      RunNext(q, acts, n - 1);
    }
  }

  lemma TryPopIsFree(q: ZeroQueue, a: Action<int>)
    requires History(q) && PopBounded(q.claims) && PopClaims(q, a) && (a.Begin? ==> !a.call.Pop?)
    ensures PopFree(q, q.claims.tail)
  {
    var t, cap := q.claims.tail, q.claims.capacity;
    assert t < q.claims.head;
    if cap <= t && t - cap !in q.popped {
      DeadTogether(q, t - cap, t);
      assert q.pushed[t - cap] == ZERO;
    }
  }

  ghost predicate Settled(q: ZeroQueue) {
    forall i :: 0 <= i < |q.claims.pcs| ==> !Claimed(q.claims.pcs[i])
  }

  lemma VacantSlot(q: ZeroQueue, p: nat)
    requires Inv(q) && Settled(q)
    requires q.claims.head <= p < q.claims.tail + q.claims.capacity
    ensures q.slots[Index(q, p)] == ZERO
  {
    var cap := q.claims.capacity;
    if p < cap {
      ModSmall(p, cap);
    } else {
      NextIndex(q, p - cap);
      assert !PopHeld(q, p - cap);
      assert q.slots[Index(q, p - cap)] == Content(q, p - cap);
    }
  }

  lemma SettledTail(q: ZeroQueue)
    requires Inv(q) && Settled(q)
    ensures q.claims.tail <= q.claims.head
  {
    if 0 < q.claims.tail {
      assert !PopHeld(q, q.claims.tail - 1);
    }
  }

  /** Once every call has returned, the slots hold exactly the elements of the positions
      from tail to head, and all others are zero. */
  lemma Quiescence(capacity: nat, threads: nat, acts: seq<Action<int>>)
    requires 1 <= capacity && Careful(New(capacity, threads), acts)
    requires Settled(Run(New(capacity, threads), acts))
    ensures var q := Run(New(capacity, threads), acts);
            q.claims.tail <= q.claims.head == |q.pushed| &&
            (q.claims.head <= q.claims.tail + capacity || Dead(q, q.claims.tail)) &&
            (forall p: nat :: q.claims.tail <= p < q.claims.head ==> q.slots[Index(q, p)] == q.pushed[p]) &&
            (forall p: nat :: q.claims.head <= p < q.claims.tail + capacity ==> q.slots[Index(q, p)] == ZERO)
  {
    var q := Run(New(capacity, threads), acts);
    Delivery(capacity, threads, acts);
    InvAtStart(capacity, threads);
    InvHolds(New(capacity, threads), acts);
    SettledTail(q);
    forall p: nat | q.claims.tail <= p < q.claims.head ensures q.slots[Index(q, p)] == q.pushed[p] {
      assert !PushHeld(q, p);
      assert p in q.stored && p !in q.popped;
    }
    forall p: nat | q.claims.head <= p < q.claims.tail + capacity ensures q.slots[Index(q, p)] == ZERO {
      VacantSlot(q, p);
    }
  }

  // ---------- Waiting pops ----------

  /** In a careful run, a waiting pop can take its element exactly when that element has been
      stored and is not zero. */
  lemma PopProceedsExactlyWhen(capacity: nat, threads: nat, acts: seq<Action<int>>, i: nat)
    requires 1 <= capacity && Careful(New(capacity, threads), acts)
    requires i < threads && Run(New(capacity, threads), acts).claims.pcs[i].Popping?
    ensures var q := Run(New(capacity, threads), acts); var p := q.claims.pcs[i].ticket;
            (p in q.stored ==> p < |q.pushed|) &&
            (Step(q, Advance(i)).claims.pcs[i].Took? <==> p in q.stored && q.pushed[p] != ZERO)
  {
    var q := Run(New(capacity, threads), acts);
    InvAtStart(capacity, threads);
    InvHolds(New(capacity, threads), acts);
    assert Holds(q, q.claims.pcs[i]);
    PopSees(q, q.claims.pcs[i].ticket);
    LoadsWhatIsThere(q, i);
  }

  lemma LoadsWhatIsThere(q: ZeroQueue, i: nat)
    requires i < |q.claims.pcs| && q.claims.pcs[i].Popping?
    ensures Step(q, Advance(i)).claims.pcs[i].Took? <==> q.slots[Index(q, q.claims.pcs[i].ticket)] != ZERO
  {
  }

  /** One that has been claimed for a push and is not stored yet belongs to a push that can
      store at once. */
  lemma PopWaitsForItsPush(capacity: nat, threads: nat, acts: seq<Action<int>>, i: nat) returns (j: nat)
    requires 1 <= capacity && Careful(New(capacity, threads), acts)
    requires var q := Run(New(capacity, threads), acts);
             i < threads && q.claims.pcs[i].Popping? &&
             q.claims.pcs[i].ticket < q.claims.head && q.claims.pcs[i].ticket !in q.stored
    ensures var q := Run(New(capacity, threads), acts);
            j < threads && q.claims.pcs[j].Pushing? && q.claims.pcs[j].ticket == q.claims.pcs[i].ticket &&
            q.claims.pcs[i].ticket in Step(q, Advance(j)).stored
  {
    InvAtStart(capacity, threads);
    InvHolds(New(capacity, threads), acts);
    var q := Run(New(capacity, threads), acts);
    var p := q.claims.pcs[i].ticket;
    assert PushHeld(q, p);
    j :| 0 <= j < |q.claims.pcs| && q.claims.pcs[j].Pushing? && q.claims.pcs[j].ticket == p;
  }

  /** Thread `i` waits for position `p`, where a zero has been stored. */
  ghost predicate WaitsForZero(q: ZeroQueue, i: nat, p: nat) {
    i < |q.claims.pcs| && q.claims.pcs[i] == Popping(p) &&
    p in q.stored && p < |q.pushed| && q.pushed[p] == ZERO
  }

  lemma ZeroBlocksStep(q: ZeroQueue, a: Action<int>, i: nat, p: nat)
    requires Inv(q) && WaitsForZero(q, i, p)
    ensures WaitsForZero(Step(q, a), i, p)
  {
    RecordsGrow(q, a);
    if a.thread == i {
      ZeroHoldsBack(q, a, p);
    } else {
      OthersStay(q, a, i);
    }
  }

  lemma OthersStay(q: ZeroQueue, a: Action<int>, i: nat)
    requires i < |q.claims.pcs| && i != a.thread
    ensures Step(q, a).claims.pcs[i] == q.claims.pcs[i]
  {
  }

  lemma ZeroHoldsBack(q: ZeroQueue, a: Action<int>, p: nat)
    requires Inv(q) && WaitsForZero(q, a.thread, p)
    ensures Step(q, a) == q
  {
    assert Holds(q, q.claims.pcs[a.thread]);
    PopSees(q, p);
  }

  lemma RecordsGrow(q: ZeroQueue, a: Action<int>)
    ensures q.stored <= Step(q, a).stored && q.pushed <= Step(q, a).pushed
  {
  }

  /** A stored zero is never taken: its pop waits through every careful continuation. */
  lemma {:induction false} ZeroBlocksItsPop(q: ZeroQueue, more: seq<Action<int>>, i: nat, p: nat)
    requires Inv(q) && Careful(q, more) && WaitsForZero(q, i, p)
    ensures WaitsForZero(Run(q, more), i, p)
  {
    if more != [] {
      var n := |more| - 1;
      CarefulPrefix(q, more, n);
      ZeroBlocksItsPop(q, more[..n], i, p);
      InvHolds(q, more[..n]);
      ZeroBlocksStep(Run(q, more[..n]), more[n], i, p);
    }
  }

  // ---------- Draining ----------

  ghost predicate Reaches(q: ZeroQueue, s: ZeroQueue) {
    exists acts: seq<Action<int>> :: Careful(q, acts) && Run(q, acts) == s
  }

  lemma CarefulLonger(q: ZeroQueue, acts: seq<Action<int>>, a: Action<int>)
    requires Careful(q, acts) && CarefulStep(Run(q, acts), a)
    ensures Careful(q, acts + [a]) && Run(q, acts + [a]) == Step(Run(q, acts), a)
  {
    var more := acts + [a];
    assert more[..|acts|] == acts;
    forall k | 0 <= k < |more| ensures CarefulStep(Run(q, more[..k]), more[k]) {
      if k < |acts| {
        assert more[..k] == acts[..k];
        assert CarefulStep(Run(q, acts[..k]), acts[k]);
      }
    }
  }

  lemma ReachesNext(q: ZeroQueue, s: ZeroQueue, a: Action<int>)
    requires Reaches(q, s) && CarefulStep(s, a)
    ensures Reaches(q, Step(s, a))
  {
    var acts: seq<Action<int>> :| Careful(q, acts) && Run(q, acts) == s;
    CarefulLonger(q, acts, a);
  }

  lemma ReachesItself(q: ZeroQueue)
    ensures Reaches(q, q)
  {
    var acts: seq<Action<int>> := [];
    assert Careful(q, acts) && Run(q, acts) == q;
  }

  /** Work on a slot claims nothing, so it is careful. */
  lemma ReachesWork(q: ZeroQueue, s: ZeroQueue, i: nat)
    requires Reaches(q, s) && i < |s.claims.pcs| && Claimed(s.claims.pcs[i])
    ensures Reaches(q, Step(s, Advance(i)))
  {
    WorkIsCareful(s, i);
    ReachesNext(q, s, Advance(i));
  }

  lemma WorkIsCareful(s: ZeroQueue, i: nat)
    requires i < |s.claims.pcs| && Claimed(s.claims.pcs[i])
    ensures CarefulStep(s, Advance(i))
  {
    assert Step(s, Advance(i)).claims.head == s.claims.head && Step(s, Advance(i)).claims.tail == s.claims.tail;
  }

  lemma StoresNext(q: ZeroQueue, s: ZeroQueue, j: nat, v: int, t: nat)
    requires Reaches(q, s) && j < |s.claims.pcs| && s.claims.pcs[j] == Pushing(v, t)
    ensures Reaches(q, Store(s, j, v, t))
  {
    ReachesWork(q, s, j);
  }

  /** All claimed calls can return without any further claim. */
  ghost predicate Drains(q: ZeroQueue) {
    exists s: ZeroQueue :: Reaches(q, s) && Settled(s) && SameClaims(q, s)
  }

  /** Every position claimed for a pop has been claimed for a push of an element that is not zero. */
  ghost predicate Fed(q: ZeroQueue) {
    forall p: nat :: p < q.claims.tail ==> FedAt(q, p)
  }

  ghost predicate FedAt(q: ZeroQueue, p: nat) {
    p < |q.pushed| && q.pushed[p] != ZERO
  }

  ghost predicate SameClaims(q: ZeroQueue, s: ZeroQueue) {
    s.claims.head == q.claims.head && s.claims.tail == q.claims.tail
  }

  lemma {:induction false} RecordsOnlyGrow(q: ZeroQueue, acts: seq<Action<int>>)
    ensures q.pushed <= Run(q, acts).pushed
  {
    if acts != [] {
      RecordsOnlyGrow(q, acts[..|acts| - 1]);
      RecordsGrow(Run(q, acts[..|acts| - 1]), acts[|acts| - 1]);
    }
  }

  lemma ReachedInv(q: ZeroQueue, s: ZeroQueue)
    requires Inv(q) && Reaches(q, s)
    ensures Inv(s) && q.pushed <= s.pushed
  {
    var acts: seq<Action<int>> :| Careful(q, acts) && Run(q, acts) == s;
    InvHolds(q, acts);
    RecordsOnlyGrow(q, acts);
  }

  ghost predicate NoPushes(s: ZeroQueue, k: nat) {
    forall i :: 0 <= i < k && i < |s.claims.pcs| ==> !s.claims.pcs[i].Pushing?
  }

  /** Every pending store can happen: here thread by thread. */
  lemma {:induction false} FinishPushes(q: ZeroQueue, s: ZeroQueue, k: nat) returns (s': ZeroQueue)
    requires Reaches(q, s) && Inv(s) && k <= |s.claims.pcs| && NoPushes(s, k)
    ensures Reaches(q, s') && Inv(s') && SameClaims(s, s') && s'.pushed == s.pushed
    ensures NoPushes(s', |s'.claims.pcs|)
    decreases |s.claims.pcs| - k
  {
    if k == |s.claims.pcs| {
      s' := s;
    } else {
      var s1 := FinishPush(q, s, k);
      assert NoPushes(s1, k + 1);
      s' := FinishPushes(q, s1, k + 1);
    }
  }

  lemma FinishPush(q: ZeroQueue, s: ZeroQueue, k: nat) returns (s': ZeroQueue)
    requires Reaches(q, s) && Inv(s) && k < |s.claims.pcs|
    ensures Reaches(q, s') && Inv(s') && SameClaims(s, s') && s'.pushed == s.pushed
    ensures s'.claims.pcs == s.claims.pcs[k := s'.claims.pcs[k]] && !s'.claims.pcs[k].Pushing?
  {
    s' := s;
    if s.claims.pcs[k].Pushing? {
      StoresNext(q, s, k, s.claims.pcs[k].v, s.claims.pcs[k].ticket);
      StoreKeepsInv(s, k);
      s' := Store(s, k, s.claims.pcs[k].v, s.claims.pcs[k].ticket);
    }
  }

  /** Nothing but returns is left to do. */
  ghost predicate Ready(s: ZeroQueue) {
    Inv(s) && Fed(s) && NoPushes(s, |s.claims.pcs|)
  }

  lemma StillReady(s: ZeroQueue, s': ZeroQueue, k: nat)
    requires Ready(s) && Inv(s') && SameClaims(s, s') && s'.pushed == s.pushed
    requires k < |s.claims.pcs| == |s'.claims.pcs| && !s'.claims.pcs[k].Pushing?
    requires s'.claims.pcs == s.claims.pcs[k := s'.claims.pcs[k]]
    ensures Ready(s')
  {
    forall p: nat | p < s'.claims.tail ensures FedAt(s', p) {
      assert FedAt(s, p);
    }
  }

  lemma FoundByPop(s: ZeroQueue, k: nat)
    requires Ready(s) && k < |s.claims.pcs| && s.claims.pcs[k].Popping?
    ensures s.slots[Index(s, s.claims.pcs[k].ticket)] != ZERO
  {
    var p := s.claims.pcs[k].ticket;
    assert Holds(s, s.claims.pcs[k]);
    assert FedAt(s, p);
    assert !PushHeld(s, p);
    PopSees(s, p);
  }

  lemma FinishLoad(q: ZeroQueue, s: ZeroQueue, k: nat) returns (s': ZeroQueue)
    requires Reaches(q, s) && Ready(s) && k < |s.claims.pcs| && Takes(s.claims.pcs[k])
    ensures Reaches(q, s') && Ready(s') && SameClaims(s, s')
    ensures s'.claims.pcs == s.claims.pcs[k := s'.claims.pcs[k]] && s'.claims.pcs[k].Took?
  {
    s' := s;
    if s.claims.pcs[k].Popping? {
      FoundByPop(s, k);
      ReachesWork(q, s, k);
      LoadKeepsInv(s, k);
      s' := Load(s, k, s.claims.pcs[k].ticket);
      StillReady(s, s', k);
    }
  }

  lemma FinishClear(q: ZeroQueue, s: ZeroQueue, k: nat) returns (s': ZeroQueue)
    requires Reaches(q, s) && Ready(s) && k < |s.claims.pcs| && s.claims.pcs[k].Took?
    ensures Reaches(q, s') && Ready(s') && SameClaims(s, s') && s'.claims.pcs == s.claims.pcs[k := Idle]
  {
    ReachesWork(q, s, k);
    ClearKeepsInv(s, k);
    s' := Clear(s, k, s.claims.pcs[k].ticket, s.claims.pcs[k].taken);
    StillReady(s, s', k);
  }

  /** A pop whose element is stored returns in at most two steps. */
  lemma FinishPop(q: ZeroQueue, s: ZeroQueue, k: nat) returns (s': ZeroQueue)
    requires Reaches(q, s) && Ready(s) && k < |s.claims.pcs|
    ensures Reaches(q, s') && Ready(s') && SameClaims(s, s')
    ensures s'.claims.pcs == s.claims.pcs[k := s'.claims.pcs[k]] && !Claimed(s'.claims.pcs[k])
  {
    if Takes(s.claims.pcs[k]) {
      var s1 := FinishLoad(q, s, k);
      s' := FinishClear(q, s1, k);
    } else {
      OnlyPopsAreLeft(s, k);
      s' := s;
    }
  }

  lemma OnlyPopsAreLeft(s: ZeroQueue, k: nat)
    requires Ready(s) && k < |s.claims.pcs| && !Takes(s.claims.pcs[k])
    ensures !Claimed(s.claims.pcs[k])
  {
    assert Holds(s, s.claims.pcs[k]);
  }

  lemma {:induction false} FinishPops(q: ZeroQueue, s: ZeroQueue, k: nat) returns (s': ZeroQueue)
    requires Reaches(q, s) && Ready(s) && k <= |s.claims.pcs|
    requires forall i :: 0 <= i < k ==> !Claimed(s.claims.pcs[i])
    ensures Reaches(q, s') && SameClaims(s, s') && Settled(s')
    decreases |s.claims.pcs| - k
  {
    if k == |s.claims.pcs| {
      s' := s;
    } else {
      var s1 := FinishPop(q, s, k);
      s' := FinishPops(q, s1, k + 1);
    }
  }

  /** The claimed calls of a careful run can all return exactly when every position claimed
      for a pop has been claimed for a push of an element that is not zero. */
  lemma DrainsExactlyWhenFed(capacity: nat, threads: nat, acts: seq<Action<int>>)
    requires 1 <= capacity && Careful(New(capacity, threads), acts)
    ensures var q := Run(New(capacity, threads), acts);
            Drains(q) <==> Fed(q)
  {
    var q := Run(New(capacity, threads), acts);
    InvAtStart(capacity, threads);
    InvHolds(New(capacity, threads), acts);
    if Drains(q) {
      var s: ZeroQueue :| Reaches(q, s) && Settled(s) && SameClaims(q, s);
      ReachedInv(q, s);
      AllReturned(q, s);
    }
    if Fed(q) {
      var s := Finish(q);
    }
  }

  lemma AllReturned(q: ZeroQueue, s: ZeroQueue)
    requires History(q) && Inv(s) && Settled(s) && SameClaims(q, s) && q.pushed <= s.pushed
    ensures Fed(q)
  {
    assert s.pushed == q.pushed;
    forall p: nat | p < q.claims.tail ensures FedAt(q, p) {
      assert !PopHeld(s, p);
      assert p in s.popped;
    }
  }

  lemma Finish(q: ZeroQueue) returns (s: ZeroQueue)
    requires Inv(q) && Fed(q)
    ensures Reaches(q, s) && Settled(s) && SameClaims(q, s)
  {
    ReachesItself(q);
    s := FinishPushes(q, q, 0);
    forall p: nat | p < s.claims.tail ensures FedAt(s, p) {
      assert FedAt(q, p);
    }
    s := FinishPops(q, s, 0);
  }
}
