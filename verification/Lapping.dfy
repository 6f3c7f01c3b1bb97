/** What happens to AtomicQueue and AtomicQueueB (src/atomic_queue.rs:118-200, 304-386) when
    a claim laps an unfinished call at its slot: the first such claim is what breaks
    delivery, and calls of every kind can make one.
 */
module Lapping {
  import opened Claiming
  import opened ZeroSlot

  // ---------- Careful is exactly what delivery needs ----------

  /** `n` more threads, which have not called anything yet. */
  function Joined(q: ZeroQueue, n: nat): ZeroQueue {
    q.(claims := q.claims.(pcs := q.claims.pcs + seq(n, _ => Idle)))
  }

  /** However many threads join and whatever they all do, delivery stays intact as long as
      no later claim laps. */
  ghost predicate StaysIntact(q: ZeroQueue) {
    forall n: nat, s: ZeroQueue :: Reaches(Joined(q, n), s) ==> Intact(s)
  }

  lemma JoinedKeepsInv(q: ZeroQueue, n: nat)
    requires Inv(q)
    ensures Inv(Joined(q, n))
  {
    var q' := Joined(q, n);
    SameRecords(q, q');
    forall j | 0 <= j < |q'.claims.pcs| ensures Holds(q', q'.claims.pcs[j]) {
      assert j < |q.claims.pcs| ==> Holds(q, q.claims.pcs[j]);
    }
    assert forall j :: 0 <= j < |q.claims.pcs| ==> q'.claims.pcs[j] == q.claims.pcs[j];
    forall p: nat | p < q.claims.head <= p + q.claims.capacity
      ensures q'.slots[Index(q', p)] == Content(q', p)
    {
      assert q.slots[Index(q, p)] == Content(q, p);
    }
  }

  lemma CarefulIsSafe(q: ZeroQueue, a: Action<int>)
    requires Inv(q) && CarefulStep(q, a)
    ensures StaysIntact(ZeroSlot.Step(q, a))
  {
    InvStep(q, a);
    forall n: nat, s: ZeroQueue | Reaches(Joined(ZeroSlot.Step(q, a), n), s) ensures Intact(s) {
      JoinedKeepsInv(ZeroSlot.Step(q, a), n);
      var acts: seq<Action<int>> :|
        Careful(Joined(ZeroSlot.Step(q, a), n), acts) && Run(Joined(ZeroSlot.Step(q, a), n), acts) == s;
      InvHolds(Joined(ZeroSlot.Step(q, a), n), acts);
      InvIsIntact(s);
    }
  }

  lemma ReachesLoad(q: ZeroQueue, s: ZeroQueue, i: nat, t: nat)
    requires Reaches(q, s) && i < |s.claims.pcs| && s.claims.pcs[i] == Popping(t)
    ensures Reaches(q, Load(s, i, t))
  {
    SlotSteps(s, i);
    ReachesWork(q, s, i);
  }

  lemma ReachesClear(q: ZeroQueue, s: ZeroQueue, i: nat, t: nat, v: int)
    requires Reaches(q, s) && i < |s.claims.pcs| && s.claims.pcs[i] == Took(t, v)
    ensures Reaches(q, Clear(s, i, t, v))
  {
    SlotSteps(s, i);
    ReachesWork(q, s, i);
  }

  /** A pop finds something although its position has not been claimed for a push. */
  lemma TakesTooEarly(q: ZeroQueue, n: nat, s: ZeroQueue, i: nat, t: nat)
    requires Reaches(Joined(q, n), s)
    requires i < |s.claims.pcs| && s.claims.pcs[i] == Popping(t)
    requires |s.pushed| <= t && s.slots[Index(s, t)] != ZERO
    ensures !StaysIntact(q)
  {
    ReachesLoad(Joined(q, n), s, i, t);
    var s1 := Load(s, i, t);
    var v := s.slots[Index(s, t)];
    ReachesClear(Joined(q, n), s1, i, t, v);
    assert t in Clear(s1, i, t, v).popped;
    assert !Intact(Clear(s1, i, t, v));
  }

  /** A pop of position `r` zeroes the slot that holds the element of position `h`. */
  lemma TakesAnothers(q: ZeroQueue, n: nat, s: ZeroQueue, j: nat, r: nat, h: nat)
    requires Reaches(Joined(q, n), s) && h != r && Index(s, h) == Index(s, r)
    requires j < |s.claims.pcs| && Takes(s.claims.pcs[j]) && s.claims.pcs[j].ticket == r
    requires s.slots[Index(s, r)] != ZERO && h in s.stored && h !in s.popped && h < |s.pushed| && s.pushed[h] != ZERO
    ensures !StaysIntact(q)
  {
    if s.claims.pcs[j].Popping? {
      ReachesLoad(Joined(q, n), s, j, r);
      ErasesAnothers(q, n, Load(s, j, r), j, r, h, s.slots[Index(s, r)]);
    } else {
      ErasesAnothers(q, n, s, j, r, h, s.claims.pcs[j].taken);
    }
  }

  lemma ErasesAnothers(q: ZeroQueue, n: nat, s: ZeroQueue, j: nat, r: nat, h: nat, v: int)
    requires Reaches(Joined(q, n), s) && h != r && Index(s, h) == Index(s, r)
    requires j < |s.claims.pcs| && s.claims.pcs[j] == Took(r, v)
    requires h in s.stored && h !in s.popped && h < |s.pushed| && s.pushed[h] != ZERO
    ensures !StaysIntact(q)
  {
    ReachesClear(Joined(q, n), s, j, r, v);
    LostFrom(q, n, Clear(s, j, r, v), h);
  }

  /** The claiming states where the threads from `first` on have claimed `k` pops in turn. */
  ghost predicate PopsClaimed(c: Claims<int>, c': Claims<int>, first: nat, k: nat) {
    |c'.pcs| == |c.pcs| && c' == c.(tail := c.tail + k, pcs := c'.pcs) &&
    forall j :: 0 <= j < |c.pcs| ==>
      c'.pcs[j] == if first <= j < first + k then Popping(c.tail + (j - first)) else c.pcs[j]
  }

  ghost predicate PopsFree(s: ZeroQueue, to: nat) {
    forall p: nat :: p < to ==> PopFree(s, p)
  }

  lemma {:induction false} PopsInTurn(q: ZeroQueue, s: ZeroQueue, first: nat, k: nat, to: nat) returns (s': ZeroQueue)
    requires Reaches(q, s) && first + k <= |s.claims.pcs|
    requires forall j :: first <= j < |s.claims.pcs| ==> s.claims.pcs[j].Idle?
    requires PopsFree(s, to) && s.claims.tail + k == to
    ensures Reaches(q, s') && s' == s.(claims := s'.claims) && PopsClaimed(s.claims, s'.claims, first, k)
    decreases k
  {
    if k == 0 {
      s' := s;
    } else {
      var s0 := PopsInTurn(q, s, first, k - 1, to - 1);
      OneMorePop(s.claims, s0.claims, first, k - 1);
      PopInTurn(q, s, s0, first + k - 1, to);
      s' := PopClaimed(s0, first + k - 1);
    }
  }

  lemma OneMorePop(c: Claims<int>, c0: Claims<int>, first: nat, k: nat)
    requires PopsClaimed(c, c0, first, k) && first + k < |c.pcs| && c.pcs[first + k].Idle?
    ensures c0.pcs[first + k].Idle?
    ensures PopsClaimed(
              c, c0.(tail := c0.tail + 1, pcs := c0.pcs[first + k := Popping(c0.tail)]), first, k + 1)
  {
  }

  lemma PopInTurn(q: ZeroQueue, s: ZeroQueue, s0: ZeroQueue, i: nat, to: nat)
    requires Reaches(q, s0) && s0 == s.(claims := s0.claims) && s0.claims.capacity == s.claims.capacity
    requires PopsFree(s, to) && s0.claims.tail < to && i < |s0.claims.pcs| && s0.claims.pcs[i].Idle?
    ensures Reaches(q, PopClaimed(s0, i))
  {
    assert ZeroSlot.Step(s0, Begin(i, Pop)) == PopClaimed(s0, i);
    SamePopFree(s, s0, s0.claims.tail);
    assert PopFree(s, s0.claims.tail);
    ReachesNext(q, s0, Begin(i, Pop));
  }

  lemma SamePopFree(s: ZeroQueue, s0: ZeroQueue, p: nat)
    requires s0.popped == s.popped && s0.pushed == s.pushed && s0.claims.capacity == s.claims.capacity
    ensures PopFree(s0, p) <==> PopFree(s, p)
  {
  }

  lemma PushInTurn(q: ZeroQueue, s: ZeroQueue, i: nat, v: int)
    requires Reaches(q, s) && i < |s.claims.pcs| && s.claims.pcs[i].Idle? && PushFree(s, v)
    ensures Reaches(q, PushClaimed(s, i, v))
  {
    assert ZeroSlot.Step(s, Begin(i, Push(v))) == PushClaimed(s, i, v);
    ReachesNext(q, s, Begin(i, Push(v)));
  }

  /** Zeros are claimed for at the next `k` positions, all of them at dead slots. */
  lemma {:induction false} ZerosInTurn(q: ZeroQueue, s: ZeroQueue, first: nat, k: nat) returns (s': ZeroQueue)
    requires Reaches(q, s) && |s.pushed| == s.claims.head && first + k <= |s.claims.pcs|
    requires forall j :: first <= j < |s.claims.pcs| ==> s.claims.pcs[j].Idle?
    requires forall p: nat :: s.claims.head <= p < s.claims.head + k ==> Dead(s, p)
    ensures Reaches(q, s') && |s'.pushed| == s'.claims.head == s.claims.head + k
    ensures s' == s.(claims := s'.claims, pushed := s'.pushed)
    ensures s'.claims == s.claims.(head := s'.claims.head, pcs := s'.claims.pcs)
    ensures |s'.claims.pcs| == |s.claims.pcs|
    ensures forall j :: 0 <= j < |s.claims.pcs| && !(first <= j < first + k) ==> s'.claims.pcs[j] == s.claims.pcs[j]
    ensures forall p: nat :: Dead(s, p) ==> Dead(s', p)
    decreases k
  {
    if k == 0 {
      s' := s;
    } else {
      var s0 := ZerosInTurn(q, s, first, k - 1);
      assert Dead(s, s0.claims.head);
      PushInTurn(q, s0, first + k - 1, ZERO);
      s' := PushClaimed(s0, first + k - 1, ZERO);
      MoreIsDead(s0, ZERO);
    }
  }

  // ---------- A lapping push ----------

  /** The state in which `n` threads have joined and the lapping push of thread `i` has stored. */
  lemma AfterLap(q: ZeroQueue, i: nat, v: int, n: nat) returns (s: ZeroQueue)
    requires i < |q.claims.pcs|
    ensures Reaches(Joined(PushClaimed(q, i, v), n), s)
    ensures s.claims.capacity == q.claims.capacity && s.claims.tail == q.claims.tail
    ensures |s.claims.pcs| == |q.claims.pcs| + n
    ensures forall j :: 0 <= j < |q.claims.pcs| && j != i ==> s.claims.pcs[j] == q.claims.pcs[j]
    ensures forall j :: |q.claims.pcs| <= j < |s.claims.pcs| ==> s.claims.pcs[j].Idle?
    ensures s.slots == q.slots[Index(q, q.claims.head) := v] && s.stored == q.stored + {q.claims.head}
    ensures s.popped == q.popped && s.pushed == q.pushed + [v]
  {
    var q0 := Joined(PushClaimed(q, i, v), n);
    ReachesItself(q0);
    assert q0.claims.pcs[i] == Pushing(v, q.claims.head);
    StoresNext(q0, q0, i, v, q.claims.head);
    s := Store(q0, i, v, q.claims.head);
  }

  /** The positions up to the lapped one may be claimed for pops. */
  lemma PopsBeforeLap(q: ZeroQueue, s: ZeroQueue, to: nat)
    requires History(q) && to <= q.claims.head && s.claims.capacity == q.claims.capacity
    requires s.popped == q.popped && q.pushed <= s.pushed
    ensures PopsFree(s, to)
  {
    forall p: nat | p < to ensures PopFree(s, p) {
      if q.claims.capacity <= p && p - q.claims.capacity !in q.popped {
        assert s.pushed[p - q.claims.capacity] == ZERO;
        NotDeadHere(s, p - q.claims.capacity, p);
      }
    }
  }

  lemma PusherOf(q: ZeroQueue, p: nat) returns (j: nat)
    requires Inv(q) && p < q.claims.head && p !in q.stored
    ensures j < |q.claims.pcs| && q.claims.pcs[j] == Pushing(q.pushed[p], p)
  {
    assert PushHeld(q, p);
    j :| 0 <= j < |q.claims.pcs| && q.claims.pcs[j].Pushing? && q.claims.pcs[j].ticket == p;
    assert Holds(q, q.claims.pcs[j]);
  }

  lemma PopperOf(q: ZeroQueue, p: nat) returns (j: nat)
    requires Inv(q) && p < q.claims.tail && p !in q.popped
    ensures j < |q.claims.pcs| && Takes(q.claims.pcs[j]) && q.claims.pcs[j].ticket == p
  {
    assert PopHeld(q, p);
    j :| 0 <= j < |q.claims.pcs| && Takes(q.claims.pcs[j]) && q.claims.pcs[j].ticket == p;
  }

  lemma LostFrom(q: ZeroQueue, n: nat, s: ZeroQueue, p: nat)
    requires Reaches(Joined(q, n), s)
    requires p in s.stored && p !in s.popped && p < |s.pushed| && s.slots[Index(s, p)] != s.pushed[p]
    ensures !StaysIntact(q)
  {
    assert !Intact(s);
  }

  /** A turn on, the same slot. */
  lemma TurnOn(q: ZeroQueue, r: nat, t: nat)
    requires t == r + q.claims.capacity
    ensures Index(q, t) == Index(q, r)
  {
    NextIndex(q, r);
  }

  /** What a lapping push finds: position `r`, one turn behind, has not been returned. */
  ghost predicate Laps(q: ZeroQueue, i: nat, r: nat) {
    i < |q.claims.pcs| && !Claimed(q.claims.pcs[i]) && |q.pushed| == q.claims.head && q.claims.head !in q.popped &&
    r + q.claims.capacity == q.claims.head && r !in q.popped
  }

  /** A different element overwrites the one stored ... */
  lemma LapOverwrites(q: ZeroQueue, i: nat, v: int, r: nat)
    requires Laps(q, i, r) && v != q.pushed[r] && r in q.stored
    ensures !StaysIntact(PushClaimed(q, i, v))
  {
    var s := AfterLap(q, i, v, 0);
    TurnOn(s, r, q.claims.head);
    LostFrom(PushClaimed(q, i, v), 0, s, r);
  }

  /** ... or is overwritten by it. */
  lemma LapIsOverwritten(q: ZeroQueue, i: nat, v: int, r: nat, j: nat)
    requires Laps(q, i, r) && v != q.pushed[r]
    requires j < |q.claims.pcs| && q.claims.pcs[j] == Pushing(q.pushed[r], r)
    ensures !StaysIntact(PushClaimed(q, i, v))
  {
    var s := AfterLap(q, i, v, 0);
    TurnOn(s, r, q.claims.head);
    StoresNext(Joined(PushClaimed(q, i, v), 0), s, j, q.pushed[r], r);
    LostFrom(PushClaimed(q, i, v), 0, Store(s, j, q.pushed[r], r), q.claims.head);
  }

  /** An equal element is taken for the one stored: one pop zeroes both. */
  lemma LapLosesOne(q: ZeroQueue, i: nat, v: int, r: nat, j: nat)
    requires Laps(q, i, r) && v == q.pushed[r] != ZERO
    requires j < |q.claims.pcs| && Takes(q.claims.pcs[j]) && q.claims.pcs[j].ticket == r
    ensures !StaysIntact(PushClaimed(q, i, v))
  {
    var s := AfterLap(q, i, v, 0);
    TurnOn(s, r, q.claims.head);
    TakesAnothers(PushClaimed(q, i, v), 0, s, j, r, q.claims.head);
  }

  /** The same once further threads have claimed the positions up to it. */
  lemma LapLosesLater(q: ZeroQueue, i: nat, v: int, r: nat)
    requires Laps(q, i, r) && History(q) && v == q.pushed[r] != ZERO && q.claims.tail <= r
    ensures !StaysIntact(PushClaimed(q, i, v))
  {
    var k := r - q.claims.tail + 1;
    var s, j := PopsUpTo(q, i, v, k, r);
    TurnOn(s, r, q.claims.head);
    TakesAnothers(PushClaimed(q, i, v), k, s, j, r, q.claims.head);
  }

  lemma PopsUpTo(q: ZeroQueue, i: nat, v: int, k: nat, r: nat) returns (s: ZeroQueue, j: nat)
    requires i < |q.claims.pcs| && History(q) && q.claims.tail <= r < q.claims.head && q.claims.tail + k == r + 1
    ensures Reaches(Joined(PushClaimed(q, i, v), k), s) && s.claims.capacity == q.claims.capacity
    ensures j < |s.claims.pcs| && s.claims.pcs[j] == Popping(r)
    ensures s.slots == q.slots[Index(q, q.claims.head) := v] && s.stored == q.stored + {q.claims.head}
    ensures s.popped == q.popped && s.pushed == q.pushed + [v]
  {
    var s0 := AfterLap(q, i, v, k);
    PopsBeforeLap(q, s0, r + 1);
    s := PopsInTurn(Joined(PushClaimed(q, i, v), k), s0, |q.claims.pcs|, k, r + 1);
    j := |q.claims.pcs| + k - 1;
  }

  lemma LappingPushIsUnsafe(q: ZeroQueue, i: nat, v: int)
    requires Inv(q) && i < |q.claims.pcs| && !Claimed(q.claims.pcs[i]) && !PushFree(q, v)
    ensures !StaysIntact(PushClaimed(q, i, v))
  {
    var r := LappedPosition(q, i, v);
    if v == q.pushed[r] {
      LapOfEqual(q, i, v, r);
    } else {
      LapOfOther(q, i, v, r);
    }
  }

  lemma LappedPosition(q: ZeroQueue, i: nat, v: int) returns (r: nat)
    requires History(q) && i < |q.claims.pcs| && !Claimed(q.claims.pcs[i]) && !PushFree(q, v)
    ensures Laps(q, i, r) && (v == ZERO ==> q.pushed[r] != ZERO)
  {
    r := q.claims.head - q.claims.capacity;
    NotDeadHere(q, r, q.claims.head);
  }

  lemma LapOfEqual(q: ZeroQueue, i: nat, v: int, r: nat)
    requires Laps(q, i, r) && Inv(q) && v == q.pushed[r] != ZERO
    ensures !StaysIntact(PushClaimed(q, i, v))
  {
    if r < q.claims.tail {
      var j := PopperOf(q, r);
      LapLosesOne(q, i, v, r, j);
    } else {
      LapLosesLater(q, i, v, r);
    }
  }

  lemma LapOfOther(q: ZeroQueue, i: nat, v: int, r: nat)
    requires Laps(q, i, r) && Inv(q) && v != q.pushed[r]
    ensures !StaysIntact(PushClaimed(q, i, v))
  {
    if r in q.stored {
      LapOverwrites(q, i, v, r);
    } else {
      var j := PusherOf(q, r);
      LapIsOverwritten(q, i, v, r, j);
    }
  }

  lemma NotDeadHere(q: ZeroQueue, r: nat, t: nat)
    requires r < |q.pushed| && t == r + q.claims.capacity
    ensures q.pushed[r] == ZERO ==> Dead(q, t)
  {
    DeadTogether(q, r, t);
  }

  // ---------- A lapping pop ----------

  /** What a lapping pop finds: the pop of position `r`, one turn behind, has not returned. */
  ghost predicate LapsPop(q: ZeroQueue, i: nat, r: nat) {
    i < |q.claims.pcs| && !Claimed(q.claims.pcs[i]) && |q.pushed| == q.claims.head <= q.claims.tail &&
    r + q.claims.capacity == q.claims.tail
  }

  lemma AfterPopLap(q: ZeroQueue, i: nat, n: nat)
    requires i < |q.claims.pcs|
    ensures var s := Joined(PopClaimed(q, i), n);
            Reaches(s, s) && s == q.(claims := s.claims) && |s.claims.pcs| == |q.claims.pcs| + n &&
            s.claims.capacity == q.claims.capacity && s.claims.head == q.claims.head &&
            s.claims.pcs[i] == Popping(q.claims.tail) &&
            (forall j :: 0 <= j < |q.claims.pcs| && j != i ==> s.claims.pcs[j] == q.claims.pcs[j]) &&
            (forall j :: |q.claims.pcs| <= j < |s.claims.pcs| ==> s.claims.pcs[j].Idle?)
  {
    ReachesItself(Joined(PopClaimed(q, i), n));
  }

  /** An element of that position is there, and the wrong pop takes it ... */
  lemma LapTakes(q: ZeroQueue, i: nat, r: nat)
    requires LapsPop(q, i, r) && q.slots[Index(q, r)] != ZERO
    ensures !StaysIntact(PopClaimed(q, i))
  {
    AfterPopLap(q, i, 0);
    TurnOn(Joined(PopClaimed(q, i), 0), r, q.claims.tail);
    TakesTooEarly(PopClaimed(q, i), 0, Joined(PopClaimed(q, i), 0), i, q.claims.tail);
  }

  /** ... or it will be stored ... */
  lemma LapTakesFirst(q: ZeroQueue, i: nat, r: nat, j: nat)
    requires LapsPop(q, i, r)
    requires j < |q.claims.pcs| && q.claims.pcs[j].Pushing? && q.claims.pcs[j].ticket == r && q.claims.pcs[j].v != ZERO
    ensures !StaysIntact(PopClaimed(q, i))
  {
    var q0 := Joined(PopClaimed(q, i), 0);
    AfterPopLap(q, i, 0);
    StoresNext(q0, q0, j, q.claims.pcs[j].v, r);
    var s := Store(q0, j, q.claims.pcs[j].v, r);
    TurnOn(s, r, q.claims.tail);
    TakesTooEarly(PopClaimed(q, i), 0, s, i, q.claims.tail);
  }

  /** ... or it will be pushed, after zeros to the dead slots before it. */
  lemma LapTakesNext(q: ZeroQueue, i: nat, r: nat)
    requires LapsPop(q, i, r) && History(q) && q.claims.head <= r && !Dead(q, r)
    ensures !StaysIntact(PopClaimed(q, i))
  {
    var s, n, j := ZerosBefore(q, i, r);
    LapTurnFree(q, s, r);
    TakesThePushed(PopClaimed(q, i), n, s, i, j, q.claims.tail);
  }

  lemma ZerosBefore(q: ZeroQueue, i: nat, r: nat) returns (s: ZeroQueue, n: nat, j: nat)
    requires LapsPop(q, i, r) && History(q) && q.claims.head <= r
    ensures Reaches(Joined(PopClaimed(q, i), n), s) && |s.pushed| == s.claims.head == r
    ensures i < |s.claims.pcs| && s.claims.pcs[i] == Popping(q.claims.tail)
    ensures j < |s.claims.pcs| && s.claims.pcs[j].Idle?
    ensures s.claims.capacity == q.claims.capacity && s.popped == q.popped
  {
    var k := r - q.claims.head;
    n, j := k + 1, |q.claims.pcs| + k;
    var q0 := Joined(PopClaimed(q, i), n);
    AfterPopLap(q, i, n);
    DeadBefore(q, q0, r);
    s := ZerosInTurn(q0, q0, |q.claims.pcs|, k);
  }

  lemma DeadBefore(q: ZeroQueue, q0: ZeroQueue, r: nat)
    requires History(q) && r + q.claims.capacity == q.claims.tail
    requires q0.pushed == q.pushed && q0.claims.capacity == q.claims.capacity
    ensures forall p: nat :: q.claims.head <= p < r ==> Dead(q0, p)
  {
    forall p: nat | q.claims.head <= p < r ensures Dead(q0, p) {
      assert p !in q.popped;
      assert Dead(q, p);
    }
  }

  lemma LapTurnFree(q: ZeroQueue, s: ZeroQueue, r: nat)
    requires History(q) && r < q.claims.tail && !Dead(q, r)
    requires s.claims.head == r && s.claims.capacity == q.claims.capacity && s.popped == q.popped
    ensures PushFree(s, 1)
  {
    if q.claims.capacity <= r {
      DeadTogether(q, r - q.claims.capacity, r);
    }
  }

  /** Thread `j` pushes 1 and the pop of thread `i`, a turn ahead, takes it. */
  lemma TakesThePushed(q: ZeroQueue, n: nat, s: ZeroQueue, i: nat, j: nat, t: nat)
    requires Reaches(Joined(q, n), s) && |s.pushed| == s.claims.head && PushFree(s, 1)
    requires i < |s.claims.pcs| && s.claims.pcs[i] == Popping(t) && t == s.claims.head + s.claims.capacity
    requires j < |s.claims.pcs| && s.claims.pcs[j].Idle?
    ensures !StaysIntact(q)
  {
    var r := s.claims.head;
    PushInTurn(Joined(q, n), s, j, 1);
    var s1 := PushClaimed(s, j, 1);
    StoresNext(Joined(q, n), s1, j, 1, r);
    var s2 := Store(s1, j, 1, r);
    TurnOn(s2, r, t);
    TakesTooEarly(q, n, s2, i, t);
  }

  lemma LapOfPushed(q: ZeroQueue, i: nat, r: nat)
    requires Inv(q) && LapsPop(q, i, r) && r !in q.popped && r < q.claims.head && q.pushed[r] != ZERO
    ensures !StaysIntact(PopClaimed(q, i))
  {
    PopSees(q, r);
    if r in q.stored {
      LapTakes(q, i, r);
    } else {
      var j := PusherOf(q, r);
      LapTakesFirst(q, i, r, j);
    }
  }

  lemma LappingPopIsUnsafe(q: ZeroQueue, i: nat)
    requires Inv(q) && i < |q.claims.pcs| && !Claimed(q.claims.pcs[i]) && !PopFree(q, q.claims.tail)
    ensures !StaysIntact(PopClaimed(q, i))
  {
    var r := q.claims.tail - q.claims.capacity;
    DeadTogether(q, r, q.claims.tail);
    if r < q.claims.head {
      NotDeadHere(q, r, q.claims.tail);
      LapOfPushed(q, i, r);
    } else {
      LapTakesNext(q, i, r);
    }
  }

  /** After any careful run, a step of any thread is careful exactly when delivery stays
      intact in every continuation, with any number of further threads, whose own claims
      are careful: the first claim that laps is what breaks the queue. */
  lemma SafeExactlyWhenCareful(capacity: nat, threads: nat, acts: seq<Action<int>>, a: Action<int>)
    requires 1 <= capacity && Careful(New(capacity, threads), acts)
    ensures var q := Run(New(capacity, threads), acts);
            CarefulStep(q, a) <==> StaysIntact(ZeroSlot.Step(q, a))
  {
    var q := Run(New(capacity, threads), acts);
    InvAtStart(capacity, threads);
    InvHolds(New(capacity, threads), acts);
    if CarefulStep(q, a) {
      CarefulIsSafe(q, a);
    } else {
      ClaimsAlike(q, a);
      if PushClaims(q, a) && !PushFree(q, Brought(q, a)) {
        LappingPushIsUnsafe(q, a.thread, Brought(q, a));
      } else {
        LappingPopIsUnsafe(q, a.thread);
      }
    }
  }

  // ---------- Runs that lap, and a run that waits ----------

  ghost predicate OnlyTries(acts: seq<Action<int>>) {
    NoBlockingPush(acts) && NoBlockingPop(acts)
  }

  lemma Extended(q0: ZeroQueue, acts: seq<Action<int>>, a: Action<int>) returns (more: seq<Action<int>>)
    ensures acts <= more && Run(q0, more) == ZeroSlot.Step(Run(q0, acts), a)
    ensures OnlyTries(acts) && (a.Begin? ==> !a.call.Push? && !a.call.Pop?) ==> OnlyTries(more)
  {
    more := acts + [a];
    assert more[..|acts|] == acts;
  }

  /** The state after thread `i` has run a whole `try_push` with nobody in between. */
  function Appended(s: ZeroQueue, v: int): ZeroQueue {
    s.(claims := s.claims.(head := s.claims.head + 1), slots := s.slots[Index(s, s.claims.head) := v],
       stored := s.stored + {s.claims.head}, pushed := s.pushed + [v])
  }

  lemma PushSteps(s: ZeroQueue, s': ZeroQueue, i: nat, v: int)
    requires i < |s.claims.pcs| && s.claims.pcs[i].Idle?
    requires !LooksFull(s.claims.head, s.claims.tail, s.claims.capacity)
    requires s' == ZeroSlot.Step(ZeroSlot.Step(ZeroSlot.Step(s, Begin(i, TryPush(v))), Advance(i)), Advance(i))
    ensures ZeroSlot.Step(s', Advance(i)) == Appended(s, v)
  {
    var c := s.claims;
    var s2 := ZeroSlot.Step(ZeroSlot.Step(s, Begin(i, TryPush(v))), Advance(i));
    assert s2.claims == Move(c, i, PushSawBoth(v, c.head, c.tail));
    assert s' == PushClaimed(s, i, v);
    assert c.pcs[i := Idle] == c.pcs;
  }

  lemma TryPushAlone(q0: ZeroQueue, acts: seq<Action<int>>, i: nat, v: int) returns (more: seq<Action<int>>)
    requires var c := Run(q0, acts).claims;
             i < |c.pcs| && c.pcs[i].Idle? && !LooksFull(c.head, c.tail, c.capacity)
    requires OnlyTries(acts)
    ensures OnlyTries(more) && Run(q0, more) == Appended(Run(q0, acts), v)
  {
    more := Extended(q0, acts, Begin(i, TryPush(v)));
    more := Extended(q0, more, Advance(i));
    more := Extended(q0, more, Advance(i));
    PushSteps(Run(q0, acts), Run(q0, more), i, v);
    more := Extended(q0, more, Advance(i));
  }

  lemma PopSteps(s: ZeroQueue, i: nat)
    requires i < |s.claims.pcs| && s.claims.pcs[i].Idle? && s.claims.head != s.claims.tail
    ensures ZeroSlot.Step(ZeroSlot.Step(ZeroSlot.Step(s, Begin(i, TryPop)), Advance(i)), Advance(i)) == PopClaimed(s, i)
  {
    var c := s.claims;
    var s2 := ZeroSlot.Step(ZeroSlot.Step(s, Begin(i, TryPop)), Advance(i));
    assert s2.claims == Move(c, i, PopSawBoth(c.tail, c.head));
  }

  lemma TryPopClaims(q0: ZeroQueue, acts: seq<Action<int>>, i: nat) returns (more: seq<Action<int>>)
    requires var s := Run(q0, acts); i < |s.claims.pcs| && s.claims.pcs[i].Idle? && s.claims.head != s.claims.tail
    requires OnlyTries(acts)
    ensures OnlyTries(more) && Run(q0, more) == PopClaimed(Run(q0, acts), i)
  {
    more := Extended(q0, acts, Begin(i, TryPop));
    more := Extended(q0, more, Advance(i));
    more := Extended(q0, more, Advance(i));
    PopSteps(Run(q0, acts), i);
  }

  lemma LoadFound(q0: ZeroQueue, acts: seq<Action<int>>, i: nat, v: int) returns (more: seq<Action<int>>)
    requires var s := Run(q0, acts);
             i < |s.claims.pcs| && s.claims.pcs[i].Popping? && s.slots[Index(s, s.claims.pcs[i].ticket)] == v != ZERO
    ensures acts <= more && (OnlyTries(acts) ==> OnlyTries(more))
    ensures var s := Run(q0, acts);
            Run(q0, more) == s.(claims := Move(s.claims, i, Took(s.claims.pcs[i].ticket, v)))
  {
    more := Extended(q0, acts, Advance(i));
  }

  lemma ClearTaken(q0: ZeroQueue, acts: seq<Action<int>>, i: nat) returns (more: seq<Action<int>>)
    requires var s := Run(q0, acts); i < |s.claims.pcs| && s.claims.pcs[i].Took?
    ensures acts <= more && (OnlyTries(acts) ==> OnlyTries(more))
    ensures var s := Run(q0, acts);
            Run(q0, more) == Clear(s, i, s.claims.pcs[i].ticket, s.claims.pcs[i].taken)
  {
    more := Extended(q0, acts, Advance(i));
  }

  /** Thread `i` takes what it finds under its position. */
  lemma TakeFound(q0: ZeroQueue, acts: seq<Action<int>>, i: nat, v: int) returns (more: seq<Action<int>>)
    requires var s := Run(q0, acts);
             i < |s.claims.pcs| && s.claims.pcs[i].Popping? && s.slots[Index(s, s.claims.pcs[i].ticket)] == v != ZERO
    ensures acts <= more && (OnlyTries(acts) ==> OnlyTries(more))
    ensures var s := Run(q0, acts);
            Run(q0, more) == Clear(s, i, s.claims.pcs[i].ticket, v)
  {
    var s := Run(q0, acts);
    more := LoadFound(q0, acts, i, v);
    more := ClearTaken(q0, more, i);
    assert s.claims.pcs[i := Took(s.claims.pcs[i].ticket, v)][i := Idle] == s.claims.pcs[i := Idle];
  }

  /** Thread 0 pushes `k` fives. */
  lemma {:induction false} Fill(capacity: nat, k: nat) returns (acts: seq<Action<int>>)
    requires k <= capacity && 1 <= capacity
    ensures OnlyTries(acts)
    ensures var s := Run(New(capacity, 2), acts);
            s.claims == Claims(capacity, k, 0, [Idle, Idle]) && |s.pushed| == k && s.popped == map[] &&
            (k > 0 ==> s.pushed[0] == 5 && s.slots[0] == 5)
  {
    if k == 0 {
      acts := [];
      assert New(capacity, 2).claims.pcs == [Idle, Idle];
    } else {
      acts := Fill(capacity, k - 1);
      acts := TryPushAlone(New(capacity, 2), acts, 0, 5);
    }
  }

  /** Calls to `try_push` and `try_pop` alone reach a lap, whatever the capacity: a full queue,
      a pop that has claimed position 0 and not loaded yet, and one more push, whose element
      overwrites the one of position 0.  That pop returns 7 where 5 was pushed. */
  lemma TryCallsCanLap(capacity: nat) returns (acts: seq<Action<int>>)
    requires 1 <= capacity
    ensures OnlyTries(acts)
    ensures var q := Run(New(capacity, 2), acts);
            0 in q.popped && q.popped[0] == 7 && |q.pushed| == capacity + 1 && q.pushed[0] == 5 && !Intact(q)
  {
    var q0 := New(capacity, 2);
    acts := Fill(capacity, capacity);
    acts := TryPopClaims(q0, acts, 1);
    acts := TryPushAlone(q0, acts, 0, 7);
    TurnOn(Run(q0, acts), 0, capacity);
    acts := TakeFound(q0, acts, 1, 7);
  }

  /** The same lap a moment later: the pop has loaded the 5 of position 0 and returns it, but its
      zero erases the 7, which nobody will ever get. */
  lemma TryCallsCanLose(capacity: nat) returns (acts: seq<Action<int>>)
    requires 1 <= capacity
    ensures OnlyTries(acts)
    ensures var q := Run(New(capacity, 2), acts);
            q.popped == map[0 := 5] && capacity in q.stored && capacity < |q.pushed| && q.pushed[capacity] == 7 &&
            q.slots[Index(q, capacity)] == ZERO && q.claims.pcs == [Idle, Idle] && !Intact(q)
  {
    var q0 := New(capacity, 2);
    acts := Fill(capacity, capacity);
    acts := TryPopClaims(q0, acts, 1);
    TurnOn(Run(q0, acts), 0, capacity);
    acts := LoadFound(q0, acts, 1, 5);
    acts := TryPushAlone(q0, acts, 0, 7);
    acts := ClearTaken(q0, acts, 1);
    var q := Run(q0, acts);
    assert q.slots[Index(q, capacity)] == ZERO;
  }

  /** With a pop waiting on the empty queue, `try_push` returns false: the tail is ahead of the head. */
  lemma WaitingPopRefusesPush(capacity: nat, v: int)
    requires 1 <= capacity
    ensures var q := Run(New(capacity, 2), [Begin(0, Pop), Begin(1, TryPush(v)), Advance(1), Advance(1)]);
            q.claims.head == 0 && q.claims.tail == 1 && q.claims.pcs == [Popping(0), Idle] && q.pushed == []
  {
    var q := New(capacity, 2);
    var acts: seq<Action<int>> := [Begin(0, Pop), Begin(1, TryPush(v)), Advance(1), Advance(1)];
    assert acts[..3][..2] == acts[..2] && acts[..2][..1] == acts[..1] && acts[..1][..0] == [];
    assert acts[..2][1] == acts[1] && acts[..3][2] == acts[2];
    assert Run(q, acts[..1]).claims.pcs == [Popping(0), Idle];
    assert Run(q, acts[..2]).claims.pcs == [Popping(0), PushSawHead(v, 0)];
    assert Run(q, acts[..3]).claims.pcs == [Popping(0), PushSawBoth(v, 0, 1)];
  }

  /** A run whose counters are still in the first turn is careful. */
  lemma {:induction false} FirstTurnIsCareful(q: ZeroQueue, acts: seq<Action<int>>, n: nat)
    requires n <= |acts|
    requires InFirstTurn(Run(q, acts))
    ensures InFirstTurn(Run(q, acts[..n]))
    ensures n < |acts| ==> CarefulStep(Run(q, acts[..n]), acts[n])
    decreases |acts| - n
  {
    if n == |acts| {
      assert acts[..n] == acts;
    } else {
      FirstTurnIsCareful(q, acts, n + 1);
      RunNext(q, acts, n);
      FirstTurnStep(Run(q, acts[..n]), acts[n]);
    }
  }

  predicate InFirstTurn(q: ZeroQueue) {
    q.claims.head <= q.claims.capacity && q.claims.tail <= q.claims.capacity
  }

  lemma FirstTurnStep(q: ZeroQueue, a: Action<int>)
    requires InFirstTurn(ZeroSlot.Step(q, a))
    ensures InFirstTurn(q) && CarefulStep(q, a)
  {
  }

  /** A zero that is pushed blocks its pop for ever, whatever the capacity: a run of `try_`
      calls after which, however the threads go on without lapping, the pop waits. */
  lemma PushedZeroIsNeverPopped(capacity: nat) returns (acts: seq<Action<int>>)
    requires 1 <= capacity
    ensures OnlyTries(acts) && Careful(New(capacity, 2), acts)
    ensures WaitsForZero(Run(New(capacity, 2), acts), 1, 0)
    ensures forall more: seq<Action<int>> :: Careful(Run(New(capacity, 2), acts), more) ==>
              WaitsForZero(Run(Run(New(capacity, 2), acts), more), 1, 0)
  {
    var q0 := New(capacity, 2);
    acts := TryPushAlone(q0, [], 0, ZERO);
    acts := TryPopClaims(q0, acts, 1);
    var q := Run(q0, acts);
    forall k | 0 <= k < |acts| ensures CarefulStep(Run(q0, acts[..k]), acts[k]) {
      FirstTurnIsCareful(q0, acts, k);
    }
    InvAtStart(capacity, 2);
    InvHolds(q0, acts);
    forall more: seq<Action<int>> | Careful(q, more) ensures WaitsForZero(Run(q, more), 1, 0) {
      ZeroBlocksItsPop(q, more, 1, 0);
    }
  }

  /** Threads 0 to `k - 1` call `pop` on the empty queue. */
  lemma {:induction false} PopsOnEmpty(capacity: nat, threads: nat, k: nat) returns (acts: seq<Action<int>>)
    requires 1 <= capacity && k <= threads
    ensures var q := Run(New(capacity, threads), acts);
            q == New(capacity, threads).(claims := q.claims) && q.claims.head == 0 && q.claims.tail == k &&
            forall i :: 0 <= i < threads ==> q.claims.pcs[i] == if i < k then Popping(i) else Idle
  {
    if k == 0 {
      acts := [];
    } else {
      acts := PopsOnEmpty(capacity, threads, k - 1);
      acts := Extended(New(capacity, threads), acts, Begin(k - 1, Pop));
    }
  }

  /** Blocking pops lap too, whatever the capacity: with one more of them than slots, threads 0
      and `capacity` wait at one slot, and after a single push of 7 the wrong one can take it. */
  lemma WaitingPopsCanLap(capacity: nat) returns (acts: seq<Action<int>>, more: seq<Action<int>>)
    requires 1 <= capacity
    ensures var s := Run(New(capacity, capacity + 2), acts);
            s.claims.pcs[0] == Popping(0) && s.claims.pcs[capacity] == Popping(capacity) &&
            Index(s, 0) == Index(s, capacity) && s.pushed == []
    ensures acts <= more
    ensures var q := Run(New(capacity, capacity + 2), more);
            q.pushed == [7] && q.popped == map[capacity := 7] && q.claims.pcs[0] == Popping(0) && !Intact(q)
  {
    var q0 := New(capacity, capacity + 2);
    acts := PopsOnEmpty(capacity, capacity + 2, capacity + 1);
    var s := Run(q0, acts);
    TurnOn(s, 0, capacity);
    more := WrongPopTakes(q0, acts);
    assert capacity in Run(q0, more).popped;
  }

  lemma PushAlone(q0: ZeroQueue, acts: seq<Action<int>>, i: nat, v: int) returns (more: seq<Action<int>>)
    requires var c := Run(q0, acts).claims; i < |c.pcs| && c.pcs[i].Idle?
    ensures acts <= more && Run(q0, more) == Appended(Run(q0, acts), v)
  {
    var s := Run(q0, acts);
    more := Extended(q0, acts, Begin(i, Push(v)));
    assert Run(q0, more) == PushClaimed(s, i, v);
    more := Extended(q0, more, Advance(i));
    assert s.claims.pcs[i := Pushing(v, s.claims.head)][i := Idle] == s.claims.pcs;
  }

  lemma WrongPopTakes(q0: ZeroQueue, acts: seq<Action<int>>) returns (more: seq<Action<int>>)
    requires var s := Run(q0, acts); var cap := s.claims.capacity;
             |s.claims.pcs| == cap + 2 && s.claims.pcs[0] == Popping(0) && s.claims.pcs[cap] == Popping(cap) &&
             s.claims.pcs[cap + 1] == Idle && s.claims.head == 0 && s.pushed == [] && s.popped == map[]
    ensures acts <= more
    ensures var q := Run(q0, more);
            q.pushed == [7] && q.popped == map[q.claims.capacity := 7] && q.claims.pcs[0] == Popping(0)
  {
    var s := Run(q0, acts);
    var cap := s.claims.capacity;
    more := PushAlone(q0, acts, cap + 1, 7);
    TurnOn(Run(q0, more), 0, cap);
    more := TakeFound(q0, more, cap, 7);
  }
}
