/** How queue positions fall on array slots (src/atomic_queue2.rs:100-105, 412-419;
    src/atomic_queue.rs:111-114).

    A ring lists, for every index below the capacity, the array slot it stands for.
    Any permutation will do: the identity for an unshuffled queue, `remap_index`
    for a shuffled one (`RemapRing`).
 */
module Ring {
  import opened Arith
  import opened Arch

  ghost predicate Permutation(layout: seq<nat>) {
    1 <= |layout| &&
    (forall i :: 0 <= i < |layout| ==> layout[i] < |layout|) &&
    (forall i, j :: 0 <= i < j < |layout| ==> layout[i] != layout[j])
  }

  type Ring = layout: seq<nat> | Permutation(layout) witness [0]

  /** The slot of a position: `remap_index(index % capacity, shuffle_bits)`. */
  function Slot(ring: Ring, position: nat): (s: nat)
    ensures s < |ring|
  {
    ring[position % |ring|]
  }

  // ---------- The source's layouts ----------

  ghost function RemapRing(capacity: nat, bits: nat): (ring: Ring)
    requires 1 <= capacity && Shufflable(capacity, bits)
    ensures |ring| == capacity
    ensures forall i :: 0 <= i < capacity ==> ring[i] == RemapIndex(i, bits)
  {
    RemapPermutes(capacity, bits);
    seq(capacity, i requires 0 <= i => RemapIndex(i, bits))
  }

  lemma RemapPermutes(capacity: nat, bits: nat)
    requires 1 <= capacity && Shufflable(capacity, bits)
    ensures Permutation(seq(capacity, i requires 0 <= i => RemapIndex(i, bits)))
  {
    var layout := seq(capacity, i requires 0 <= i => RemapIndex(i, bits));
    forall i | 0 <= i < capacity ensures layout[i] < capacity {
      RemapIsInvolution(i, capacity, bits);
    }
    forall i, j | 0 <= i < j < capacity ensures layout[i] != layout[j] {
      RemapIsInvolution(i, capacity, bits);
      RemapIsInvolution(j, capacity, bits);
    }
  }

  /** Any `capacity` consecutive positions reach every slot of the shuffled array. */
  lemma WindowCovers(capacity: nat, bits: nat, start: nat, s: nat) returns (p: nat)
    requires 1 <= capacity && Shufflable(capacity, bits) && s < capacity
    ensures start <= p < start + capacity && Slot(RemapRing(capacity, bits), p) == s
  {
    RemapIsInvolution(s, capacity, bits);
    p := PositionWithIndex(start, RemapIndex(s, bits), capacity);
  }

  lemma PositionWithIndex(start: nat, index: nat, capacity: nat) returns (p: nat)
    requires index < capacity
    ensures start <= p < start + capacity && p % capacity == index
  {
    DivMod(start, capacity);
    var base := start - start % capacity;
    if start % capacity <= index {
      p := base + index;
      DivModUnique(start / capacity, index, capacity);
    } else {
      p := base + capacity + index;
      DivModUnique(start / capacity + 1, index, capacity);
      Distribute(start / capacity, 1, capacity);
    }
  }

  // ---------- Positions cut to 64 bits ----------

  lemma WordModPow2(p: nat, capacity: nat)
    requires IsPow2(capacity) && capacity <= WORD / 2
    ensures 1 <= capacity && p % WORD % capacity == p % capacity
  {
    var k: nat :| Pow2(k) == capacity;
    Pow2Word();
    assert k <= 64 by {
      if k > 64 { Pow2Monotone(64, k); }
    }
    DivModPow2(p, 64);
    DivModPow2(p, k);
    DivModPow2(Low(p, 64), k);
    LowOfLow(p, 64, k);
  }

  /** A factor of a power of two is a power of two. */
  lemma {:induction false} FactorOfPow2(d: nat, q: nat, n: nat)
    requires d * q == Pow2(n) && 1 <= q
    ensures IsPow2(d)
    decreases n
  {
    if d == 1 {
      assert Pow2(0) == d;
    } else if d % 2 == 0 {
      HalfFactor(d / 2, q, n);
      FactorOfPow2(d / 2, q, n - 1);
      var k: nat :| Pow2(k) == d / 2;
      assert Pow2(k + 1) == d;
    } else {
      OddFactor(d, q, n);
      FactorOfPow2(d, q / 2, n - 1);
    }
  }

  lemma HalfFactor(h: nat, q: nat, n: nat)
    requires (2 * h) * q == Pow2(n)
    ensures 1 <= n && h * q == Pow2(n - 1)
  {
    assert (2 * h) * q == 2 * (h * q);
  }

  lemma OddProduct(d: nat, q: nat)
    requires d % 2 == 1
    ensures (d * q) % 2 == q % 2
  {
    var half := (d / 2) * q;
    assert d * q == 2 * half + q;
  }

  lemma EvenProduct(d: nat, q: nat)
    requires q % 2 == 0
    ensures d * q == 2 * (d * (q / 2))
  {
    var h := q / 2;
    assert q == 2 * h;
  }

  lemma OddFactor(d: nat, q: nat, n: nat)
    requires d * q == Pow2(n) && d % 2 == 1 && d != 1 && 1 <= q
    ensures 1 <= n && 2 <= q && d * (q / 2) == Pow2(n - 1)
  {
    LargerProduct(d, q);
    assert 1 <= n && Pow2(n) == 2 * Pow2(n - 1);
    assert q % 2 == 0 by {
      OddProduct(d, q);
    }
    EvenProduct(d, q);
  }

  lemma LargerProduct(d: nat, q: nat)
    requires 1 <= q
    ensures d * q >= d
  {
    ProductNonNegative(d, q - 1);
  }

  /** Whether every two different positions less than a capacity apart keep different
      slots when the counter is cut to 64 bits. */
  ghost predicate WrapSafe(ring: Ring) {
    forall p: nat, q: nat :: p < q < p + |ring| ==> Slot(ring, p % WORD) != Slot(ring, q % WORD)
  }

  /** The 64-bit wrap keeps the ring intact exactly when the capacity is a power of two. */
  lemma WrapSafeExactlyForPow2(ring: Ring)
    requires |ring| <= WORD / 2
    ensures WrapSafe(ring) <==> IsPow2(|ring|)
  {
    if IsPow2(|ring|) {
      forall p: nat, q: nat | p < q < p + |ring| ensures Slot(ring, p % WORD) != Slot(ring, q % WORD) {
        WordModPow2(p, |ring|);
        WordModPow2(q, |ring|);
        SlotsDiffer(ring, p, q);
      }
    } else {
      Collision(ring);
    }
  }

  lemma WordRemainder(capacity: nat)
    requires 1 <= capacity <= WORD / 2 && !IsPow2(capacity)
    ensures 1 <= WORD % capacity
  {
    DivMod(WORD, capacity);
    if WORD % capacity == 0 {
      Pow2Word();
      assert 1 <= WORD / capacity;
      FactorOfPow2(capacity, WORD / capacity, 64);
      assert false;
    }
  }

  /** The index of the position `j` before the wrap. */
  lemma IndexBeforeWrap(capacity: nat, j: nat)
    requires 1 <= capacity && j <= WORD % capacity
    ensures (WORD - j) % capacity == WORD % capacity - j
  {
    DivMod(WORD, capacity);
    DivModUnique(WORD / capacity, WORD % capacity - j, capacity);
  }

  /** Otherwise the position of the wrap shares its slot with one less than a capacity earlier. */
  lemma Collision(ring: Ring)
    requires |ring| <= WORD / 2 && !IsPow2(|ring|)
    ensures !WrapSafe(ring)
  {
    var cap := |ring|;
    WordRemainder(cap);
    var p := WORD - WORD % cap;
    IndexBeforeWrap(cap, WORD % cap);
    ModSmall(p, WORD);
    assert p % cap == 0 && Slot(ring, p % WORD) == ring[0];
    assert WORD % WORD == 0 && Slot(ring, WORD % WORD) == ring[0];
  }

  /** The slots of `n` positions from `tail` on, with the counter cut to 64 bits. */
  function WordSlots(ring: Ring, tail: Word, n: nat): (live: seq<nat>)
    ensures |live| == n
  {
    seq<nat>(n, k requires 0 <= k => Slot(ring, (tail + k) % WORD))
  }

  ghost predicate Distinct(live: seq<nat>) {
    forall i, j :: 0 <= i < j < |live| ==> live[i] != live[j]
  }

  lemma WordSlotsGrow(ring: Ring, tail: Word, n: nat)
    ensures WordSlots(ring, tail, n + 1) == WordSlots(ring, tail, n) + [Slot(ring, (tail + n) % WORD)]
  {
  }

  lemma CutAtWrap(p: nat)
    requires p < 2 * WORD
    ensures p % WORD == if p < WORD then p else p - WORD
  {
  }

  lemma StepThenCount(tail: nat, k: nat)
    ensures ((tail + 1) % WORD + k) % WORD == (tail + (k + 1)) % WORD
    ensures ((tail + k) % WORD + 1) % WORD == (tail + (k + 1)) % WORD
  {
    ModSum(tail + 1, k, WORD);
    ModSum(tail + k, 1, WORD);
  }

  lemma WordSlotsShrink(ring: Ring, tail: Word, n: nat)
    requires 1 <= n
    ensures WordSlots(ring, tail, n)[0] == Slot(ring, tail)
    ensures WordSlots(ring, (tail + 1) % WORD, n - 1) == WordSlots(ring, tail, n)[1..]
  {
    var rest := WordSlots(ring, (tail + 1) % WORD, n - 1);
    forall k | 0 <= k < n - 1 ensures rest[k] == WordSlots(ring, tail, n)[k + 1] {
      StepThenCount(tail, k);
      assert rest[k] == Slot(ring, ((tail + 1) % WORD + k) % WORD);
    }
    CutAtWrap(tail);
  }

  ghost function Members(live: seq<nat>): set<nat> {
    if live == [] then {} else Members(live[..|live| - 1]) + {live[|live| - 1]}
  }

  lemma {:induction false} MembersCount(live: seq<nat>)
    ensures forall x: nat :: x in Members(live) <==> x in live
    ensures Distinct(live) ==> |Members(live)| == |live|
  {
    if live != [] {
      var m := |live| - 1;
      MembersCount(live[..m]);
      assert live == live[..m] + [live[m]];
      assert Distinct(live) ==> Distinct(live[..m]) && live[m] !in live[..m];
    }
  }

  ghost function FirstSlots(n: nat): (slots: set<nat>)
    ensures |slots| == n && forall x: nat :: x in slots <==> x < n
  {
    if n == 0 then {} else FirstSlots(n - 1) + {n - 1}
  }

  /** As many different slots as there are: none is left. */
  lemma DistinctCovers(live: seq<nat>, s: nat)
    requires Distinct(live) && s < |live| && forall k :: 0 <= k < |live| ==> live[k] < |live|
    ensures s in live
  {
    MembersCount(live);
    if s !in live {
      assert |Members(live) + {s}| == |live| + 1;
      SubsetCount(Members(live) + {s}, FirstSlots(|live|));
    }
  }

  lemma {:induction false} SubsetCount(a: set<nat>, b: set<nat>)
    requires a <= b
    ensures |a| <= |b|
  {
    if a != {} {
      var x :| x in a;
      SubsetCount(a - {x}, b - {x});
    }
  }

  /** Whether the slot of the next position is free when `n` positions from `tail` on are
      taken: always for a power of two; otherwise the wrap may come between, and then only
      if fewer are taken than the capacity leaves over in a word. */
  ghost predicate NextIsFree(capacity: nat, tail: Word, n: nat)
    requires 1 <= capacity
  {
    IsPow2(capacity) || tail + n < WORD || n < WORD % capacity
  }

  /** The slot of the next position is none of those taken exactly when `NextIsFree`. */
  lemma NextIsFreeExactly(ring: Ring, tail: Word, n: nat)
    requires n < |ring| <= WORD / 2 && Distinct(WordSlots(ring, tail, n))
    ensures Slot(ring, (tail + n) % WORD) !in WordSlots(ring, tail, n) <==> NextIsFree(|ring|, tail, n)
  {
    var live := WordSlots(ring, tail, n);
    if IsPow2(|ring|) || tail + n < WORD {
      forall k | 0 <= k < n ensures live[k] != Slot(ring, (tail + n) % WORD) {
        UnwrappedSlot(ring, tail + k);
        UnwrappedSlot(ring, tail + n);
        SlotsDiffer(ring, tail + k, tail + n);
      }
    } else {
      WordRemainder(|ring|);
      if WORD + WORD % |ring| <= tail + n {
        WrapCollides(ring, tail, n);
      }
      if n < WORD % |ring| {
        forall k | 0 <= k < n ensures live[k] != Slot(ring, (tail + n) % WORD) {
          WrapMissed(ring, tail, n, k);
        }
      } else {
        WrapHit(ring, tail, n);
      }
    }
  }

  lemma UnwrappedSlot(ring: Ring, p: nat)
    requires |ring| <= WORD / 2 && (IsPow2(|ring|) || p < WORD)
    ensures Slot(ring, p % WORD) == Slot(ring, p)
  {
    if IsPow2(|ring|) {
      WordModPow2(p, |ring|);
    } else {
      ModSmall(p, WORD);
    }
  }

  lemma SlotBeforeWrap(ring: Ring, j: nat)
    requires 1 <= j <= WORD % |ring|
    ensures Slot(ring, WORD - j) == ring[WORD % |ring| - j]
  {
    IndexBeforeWrap(|ring|, j);
  }

  lemma SlotAfterWrap(ring: Ring, x: nat)
    requires x < |ring|
    ensures Slot(ring, x) == ring[x]
  {
    ModSmall(x, |ring|);
  }

  /** With more positions beyond the wrap than the remainder, two share a slot. */
  lemma WrapCollides(ring: Ring, tail: Word, n: nat)
    requires n < |ring| <= WORD / 2 && 1 <= WORD % |ring| && WORD + WORD % |ring| <= tail + n
    ensures !Distinct(WordSlots(ring, tail, n))
  {
    var r, k := WORD % |ring|, WORD - 1 - tail;
    CutAtWrap(tail + k);
    CutAtWrap(tail + k + r);
    SlotBeforeWrap(ring, 1);
    SlotAfterWrap(ring, r - 1);
    assert WordSlots(ring, tail, n)[k] == WordSlots(ring, tail, n)[k + r];
  }

  lemma WrapHit(ring: Ring, tail: Word, n: nat)
    requires n < |ring| <= WORD / 2 && WORD <= tail + n < WORD + WORD % |ring| && WORD % |ring| <= n
    ensures Slot(ring, (tail + n) % WORD) in WordSlots(ring, tail, n)
  {
    var r := WORD % |ring|;
    var m := tail + n - WORD;
    CutAtWrap(tail + n);
    CutAtWrap(tail + (n - r));
    SlotBeforeWrap(ring, r - m);
    SlotAfterWrap(ring, m);
    assert WordSlots(ring, tail, n)[n - r] == ring[m];
  }

  lemma WrapMissed(ring: Ring, tail: Word, n: nat, k: nat)
    requires k < n < |ring| <= WORD / 2 && WORD <= tail + n < WORD + WORD % |ring| && n < WORD % |ring|
    ensures WordSlots(ring, tail, n)[k] != Slot(ring, (tail + n) % WORD)
  {
    var m := tail + n - WORD;
    CutAtWrap(tail + n);
    CutAtWrap(tail + k);
    SlotAfterWrap(ring, m);
    if tail + k < WORD {
      var j := WORD - (tail + k);
      SlotBeforeWrap(ring, j);
      assert WordSlots(ring, tail, n)[k] == ring[WORD % |ring| - j];
    } else {
      SlotAfterWrap(ring, tail + k - WORD);
    }
  }

  // ---------- Windows ----------

  /** Two positions less than a capacity apart never share a slot. */
  lemma WindowInjective(ring: Ring, p: nat, q: nat)
    requires Slot(ring, p) == Slot(ring, q)
    requires 0 - |ring| < p - q < |ring|
    ensures p == q
  {
    assert p % |ring| == q % |ring|;
    SameModDistance(p, q, |ring|);
  }

  lemma SlotsDiffer(ring: Ring, p: nat, q: nat)
    requires p != q && 0 - |ring| < p - q < |ring|
    ensures Slot(ring, p) != Slot(ring, q)
  {
    if Slot(ring, p) == Slot(ring, q) {
      WindowInjective(ring, p, q);
    }
  }

  /** Positions a whole capacity apart do. */
  lemma SlotRepeats(ring: Ring, p: nat)
    ensures Slot(ring, p + |ring|) == Slot(ring, p)
  {
    ModShift(p, 1, |ring|);
  }

  // ---------- Counting the positions of one slot ----------

  /** How many positions below `n` fall on slot `s`. */
  function Tickets(ring: Ring, n: nat, s: nat): nat {
    if n == 0 then 0 else Tickets(ring, n - 1, s) + if Slot(ring, n - 1) == s then 1 else 0
  }

  ghost predicate InWindow(ring: Ring, from: nat, to: nat, s: nat) {
    exists p :: from <= p < to && Slot(ring, p) == s
  }

  lemma {:induction false} TicketsMonotone(ring: Ring, a: nat, b: nat, s: nat)
    requires a <= b
    ensures Tickets(ring, a, s) <= Tickets(ring, b, s)
    ensures InWindow(ring, a, b, s) ==> Tickets(ring, a, s) < Tickets(ring, b, s)
    decreases b
  {
    if a < b {
      TicketsMonotone(ring, a, b - 1, s);
    }
  }

  /** Within one turn of the ring a slot is met at most once. */
  lemma {:induction false} WindowCount(ring: Ring, a: nat, b: nat, s: nat)
    requires a <= b <= a + |ring|
    ensures Tickets(ring, b, s) == Tickets(ring, a, s) + if InWindow(ring, a, b, s) then 1 else 0
    decreases b
  {
    if a < b {
      WindowCount(ring, a, b - 1, s);
      if Slot(ring, b - 1) == s && InWindow(ring, a, b - 1, s) {
        var p :| a <= p < b - 1 && Slot(ring, p) == s;
        WindowInjective(ring, p, b - 1);
        assert false;
      }
    }
  }

  /** One step beyond a whole turn meets the first slot twice. */
  lemma OverfullTurn(ring: Ring, a: nat, b: nat)
    requires a + |ring| < b
    ensures Tickets(ring, b, Slot(ring, a)) >= Tickets(ring, a, Slot(ring, a)) + 2
  {
    var s := Slot(ring, a);
    assert Tickets(ring, a + 1, s) == Tickets(ring, a, s) + 1;
    SlotRepeats(ring, a);
    TicketsMonotone(ring, a + 1, a + |ring|, s);
    assert Tickets(ring, a + |ring| + 1, s) == Tickets(ring, a + |ring|, s) + 1;
    TicketsMonotone(ring, a + |ring| + 1, b, s);
  }

  // ---------- Window moves ----------

  lemma WindowGrows(ring: Ring, a: nat, b: nat, x: nat)
    requires a <= b
    ensures InWindow(ring, a, b + 1, x) <==> InWindow(ring, a, b, x) || x == Slot(ring, b)
  {
    if x == Slot(ring, b) {
      assert Slot(ring, b) == x;
    }
  }

  lemma WindowShrinks(ring: Ring, a: nat, b: nat, x: nat)
    requires a < b <= a + |ring|
    ensures InWindow(ring, a + 1, b, x) <==> InWindow(ring, a, b, x) && x != Slot(ring, a)
  {
    if InWindow(ring, a + 1, b, x) {
      var p :| a + 1 <= p < b && Slot(ring, p) == x;
      if x == Slot(ring, a) {
        WindowInjective(ring, a, p);
        assert false;
      }
    }
  }

  lemma OutsideWindow(ring: Ring, a: nat, b: nat)
    requires a <= b
    ensures InWindow(ring, a, b, Slot(ring, b)) ==> b >= a + |ring|
  {
    if InWindow(ring, a, b, Slot(ring, b)) && b < a + |ring| {
      var p :| a <= p < b && Slot(ring, p) == Slot(ring, b);
      WindowInjective(ring, p, b);
      assert false;
    }
  }

  /** A full turn meets the slot of the next position. */
  lemma FullTurn(ring: Ring, a: nat, b: nat)
    requires b == a + |ring|
    ensures InWindow(ring, a, b, Slot(ring, b))
  {
    SlotRepeats(ring, a);
    assert Slot(ring, a) == Slot(ring, b);
  }

  // ---------- Sums over slots ----------

  /** The positions below `n` that fall on the first `k` slots. */
  function TicketsBelow(ring: Ring, n: nat, k: nat): nat {
    if k == 0 then 0 else TicketsBelow(ring, n, k - 1) + Tickets(ring, n, k - 1)
  }

  lemma {:induction false} TicketsBelowStep(ring: Ring, n: nat, k: nat)
    ensures TicketsBelow(ring, n + 1, k) == TicketsBelow(ring, n, k) + if Slot(ring, n) < k then 1 else 0
  {
    if k > 0 {
      TicketsBelowStep(ring, n, k - 1);
    }
  }

  lemma {:induction false} TicketsBelowNone(ring: Ring, k: nat)
    ensures TicketsBelow(ring, 0, k) == 0
  {
    if k > 0 {
      TicketsBelowNone(ring, k - 1);
    }
  }

  /** Every position falls on exactly one slot. */
  lemma {:induction false} EveryTicketHasASlot(ring: Ring, n: nat)
    ensures TicketsBelow(ring, n, |ring|) == n
  {
    if n == 0 {
      TicketsBelowNone(ring, |ring|);
    } else {
      EveryTicketHasASlot(ring, n - 1);
      TicketsBelowStep(ring, n - 1, |ring|);
    }
  }
}
