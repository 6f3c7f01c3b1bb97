/** The single-producer single-consumer hand-off of AtomicQueue2 and AtomicQueueB2
    (src/atomic_queue2.rs:110-123, 145-157, 204-287 and 423-486, SPSC = true).

    One producer and one consumer thread take turns in any order; a step is one
    access to shared memory.  The slot state is published after the element is
    written and cleared after it is read.  A slot's element is `None` while
    uninitialised: before it is written and after it has been moved out.
    `pushed` and `returned` record the calls; no step consults them.

    `width` says whether the counters are unbounded or 64-bit words; the last part
    shows that this makes no difference.
 */
module Spsc {
  import opened Arch
  import opened Options
  import opened Ring

  datatype Width = Unbounded | Bits64

  datatype Config = Config(ring: Ring, totalOrder: bool, width: Width)

  datatype Producer<V> =
    | Ready
    | SawHead(v: V, h: nat)
    | SawBoth(v: V, h: nat, t: nat)
    | Spinning(v: V, ticket: nat)    // position claimed, slot not seen EMPTY yet
    | Storing(v: V, ticket: nat)     // slot seen EMPTY, element not written yet
    | Publishing(ticket: nat)        // element written, state not FULL yet

  datatype Consumer<V> =
    | Rested
    | SawTail(t: nat)
    | SawSizes(t: nat, h: nat)
    | Waiting(ticket: nat)           // position claimed, slot not seen FULL yet
    | Taking(ticket: nat)            // slot seen FULL, element not read yet
    | Clearing(v: V, ticket: nat)    // element read, state not EMPTY yet

  datatype State<V> = State(
    head: nat,
    tail: nat,
    full: seq<bool>,
    elements: seq<Option<V>>,
    producer: Producer<V>,
    consumer: Consumer<V>,
    pushed: seq<V>,
    returned: seq<V>)

  datatype Action<V> =
    | CallPush(v: V)
    | CallTryPush(v: V)
    | CallPop
    | CallTryPop
    | ProducerMoves
    | ConsumerMoves

  function Init<V>(cfg: Config): State<V> {
    State(0, 0, seq(|cfg.ring|, _ => false), seq(|cfg.ring|, _ => None), Ready, Rested, [], [])
  }

  // ---------- Counters ----------

  function Next(width: Width, n: nat): nat {
    match width
    case Unbounded => n + 1
    case Bits64 => (n + 1) % WORD
  }

  /** `head - tail >= capacity` on wrapping words; with unbounded counters a
      negative difference stands for the huge wrapped one. */
  predicate LooksFull(width: Width, h: nat, t: nat, capacity: nat) {
    match width
    case Unbounded => h < t || h - t >= capacity
    case Bits64 => (h - t) % WORD >= capacity
  }

  // ---------- Steps ----------

  function ProducerStep<V>(cfg: Config, s: State<V>): State<V>
    requires |s.full| == |s.elements| == |cfg.ring|
  {
    match s.producer
    case Ready => s
    case SawHead(v, h) => s.(producer := SawBoth(v, h, s.tail))
    case SawBoth(v, h, t) =>
      if LooksFull(cfg.width, h, t, |cfg.ring|) then s.(producer := Ready)
      else if cfg.totalOrder && s.head != h then s.(producer := Ready)
      else s.(head := Next(cfg.width, s.head), producer := Spinning(v, h), pushed := s.pushed + [v])
    case Spinning(v, ticket) =>
      if s.full[Slot(cfg.ring, ticket)] then s else s.(producer := Storing(v, ticket))
    case Storing(v, ticket) =>
      s.(elements := s.elements[Slot(cfg.ring, ticket) := Some(v)], producer := Publishing(ticket))
    case Publishing(ticket) =>
      s.(full := s.full[Slot(cfg.ring, ticket) := true], producer := Ready)
  }

  function ConsumerStep<V>(cfg: Config, s: State<V>): State<V>
    requires |s.full| == |s.elements| == |cfg.ring|
  {
    match s.consumer
    case Rested => s
    case SawTail(t) => s.(consumer := SawSizes(t, s.head))
    case SawSizes(t, h) =>
      if t == h then s.(consumer := Rested)
      else if cfg.totalOrder && s.tail != t then s.(consumer := Rested)
      else s.(tail := Next(cfg.width, s.tail), consumer := Waiting(t))
    case Waiting(ticket) =>
      if s.full[Slot(cfg.ring, ticket)] then s.(consumer := Taking(ticket)) else s
    case Taking(ticket) =>
      var slot := Slot(cfg.ring, ticket);
      if s.elements[slot].None? then s  // a read of uninitialised memory; never reached, see `HandoffIsSafe`
      else s.(elements := s.elements[slot := None], consumer := Clearing(s.elements[slot].value, ticket))
    case Clearing(v, ticket) =>
      s.(full := s.full[Slot(cfg.ring, ticket) := false], consumer := Rested, returned := s.returned + [v])
  }

  function Step<V>(cfg: Config, s: State<V>, a: Action<V>): (s': State<V>)
    requires |s.full| == |s.elements| == |cfg.ring|
    ensures |s'.full| == |s'.elements| == |cfg.ring|
  {
    match a
    case CallPush(v) =>
      if !s.producer.Ready? then s
      else s.(head := Next(cfg.width, s.head), producer := Spinning(v, s.head), pushed := s.pushed + [v])
    case CallTryPush(v) =>
      if !s.producer.Ready? then s else s.(producer := SawHead(v, s.head))
    case CallPop =>
      if !s.consumer.Rested? then s
      else s.(tail := Next(cfg.width, s.tail), consumer := Waiting(s.tail))
    case CallTryPop =>
      if !s.consumer.Rested? then s else s.(consumer := SawTail(s.tail))
    case ProducerMoves => ProducerStep(cfg, s)
    case ConsumerMoves => ConsumerStep(cfg, s)
  }

  function Run<V>(cfg: Config, acts: seq<Action<V>>): (s: State<V>)
    ensures |s.full| == |s.elements| == |cfg.ring|
  {
    if acts == [] then Init(cfg) else Step(cfg, Run(cfg, acts[..|acts| - 1]), acts[|acts| - 1])
  }

  // ---------- The invariant ----------

  /** The producer owns position `head - 1`. */
  predicate Owes<V>(p: Producer<V>) {
    p.Spinning? || p.Storing? || p.Publishing?
  }

  /** The consumer owns position `tail - 1`. */
  predicate Expects<V>(c: Consumer<V>) {
    c.Waiting? || c.Taking? || c.Clearing?
  }

  /** Positions published as FULL, written, returned and read so far. */
  function Published<V>(s: State<V>): int { s.head - if Owes(s.producer) then 1 else 0 }
  function Written<V>(s: State<V>): int { Published(s) + if s.producer.Publishing? then 1 else 0 }
  function Returned<V>(s: State<V>): int { s.tail - if Expects(s.consumer) then 1 else 0 }
  function Read<V>(s: State<V>): int { Returned(s) + if s.consumer.Clearing? then 1 else 0 }

  ghost predicate Counts<V>(cfg: Config, s: State<V>) {
    0 <= Returned(s) <= Published(s) <= Returned(s) + |cfg.ring| &&
    (s.producer.Storing? || s.producer.Publishing? ==> Published(s) < Returned(s) + |cfg.ring|) &&
    (s.consumer.Taking? || s.consumer.Clearing? ==> Returned(s) < Published(s)) &&
    |s.pushed| == s.head && |s.returned| == Returned(s) && s.returned == s.pushed[..Returned(s)]
  }

  ghost predicate ProducerLocals<V>(cfg: Config, s: State<V>)
    requires |s.pushed| == s.head
  {
    match s.producer
    case Ready => true
    case SawHead(_, h) => h == s.head
    case SawBoth(_, h, t) => h == s.head && t <= h + 1 && h <= t + |cfg.ring|
    case Spinning(v, ticket) => 1 <= s.head && ticket == s.head - 1 && v == s.pushed[ticket]
    case Storing(v, ticket) => 1 <= s.head && ticket == s.head - 1 && v == s.pushed[ticket]
    case Publishing(ticket) => 1 <= s.head && ticket == s.head - 1
  }

  ghost predicate ConsumerLocals<V>(cfg: Config, s: State<V>)
    requires |s.pushed| == s.head
  {
    match s.consumer
    case Rested => true
    case SawTail(t) => t == s.tail
    case SawSizes(t, h) => t == s.tail && t <= h <= t + |cfg.ring| + 1 && h <= s.head
    case Waiting(ticket) => 1 <= s.tail && ticket == s.tail - 1
    case Taking(ticket) => 1 <= s.tail && ticket == s.tail - 1
    case Clearing(v, ticket) => 1 <= s.tail && ticket == s.tail - 1 && ticket < s.head && v == s.pushed[ticket]
  }

  /** The FULL slots are those of the published positions not returned yet. */
  ghost predicate States<V>(cfg: Config, s: State<V>)
    requires |s.full| == |cfg.ring| && 0 <= Returned(s) <= Published(s)
  {
    forall x :: 0 <= x < |s.full| ==> (s.full[x] <==> InWindow(cfg.ring, Returned(s), Published(s), x))
  }

  /** The initialised elements are those of the written positions not read yet. */
  ghost predicate Elements<V>(cfg: Config, s: State<V>)
    requires |s.elements| == |cfg.ring| && 0 <= Read(s) <= Written(s) <= |s.pushed|
  {
    (forall p: nat :: Read(s) <= p < Written(s) ==> s.elements[Slot(cfg.ring, p)] == Some(s.pushed[p])) &&
    (forall x :: 0 <= x < |s.elements| && s.elements[x].Some? ==> InWindow(cfg.ring, Read(s), Written(s), x))
  }

  ghost predicate Inv<V>(cfg: Config, s: State<V>) {
    |s.full| == |s.elements| == |cfg.ring| &&
    Counts(cfg, s) && ProducerLocals(cfg, s) && ConsumerLocals(cfg, s) && States(cfg, s) && Elements(cfg, s)
  }

  // ---------- Preservation ----------

  /** Steps that leave the slots and the four marks alone. */
  lemma QuietKeepsSlots<V>(cfg: Config, s: State<V>, s': State<V>)
    requires Inv(cfg, s)
    requires s'.full == s.full && s'.elements == s.elements && s.pushed <= s'.pushed
    requires Published(s') == Published(s) && Written(s') == Written(s)
    requires Returned(s') == Returned(s) && Read(s') == Read(s)
    ensures States(cfg, s') && Elements(cfg, s')
  {
    forall p: nat | Read(s') <= p < Written(s')
      ensures s'.elements[Slot(cfg.ring, p)] == Some(s'.pushed[p])
    {
      assert s.elements[Slot(cfg.ring, p)] == Some(s.pushed[p]);
    }
  }

  lemma StoringKeepsInv<V>(cfg: Config, s: State<V>)
    requires Inv(cfg, s) && s.producer.Storing?
    ensures Inv(cfg, ProducerStep(cfg, s))
  {
    var s' := ProducerStep(cfg, s);
    var b := s.producer.ticket;
    var slot := Slot(cfg.ring, b);
    forall p: nat | Read(s') <= p < Written(s')
      ensures s'.elements[Slot(cfg.ring, p)] == Some(s'.pushed[p])
    {
      if p < b {
        assert s.elements[Slot(cfg.ring, p)] == Some(s.pushed[p]);
        if Slot(cfg.ring, p) == slot {
          WindowInjective(cfg.ring, p, b);
        }
      }
    }
    forall x | 0 <= x < |s'.elements| && s'.elements[x].Some?
      ensures InWindow(cfg.ring, Read(s'), Written(s'), x)
    {
      WindowGrows(cfg.ring, Read(s), Written(s), x);
    }
  }

  lemma PublishingKeepsInv<V>(cfg: Config, s: State<V>)
    requires Inv(cfg, s) && s.producer.Publishing?
    ensures Inv(cfg, ProducerStep(cfg, s))
  {
    var s' := ProducerStep(cfg, s);
    forall x | 0 <= x < |s'.full|
      ensures s'.full[x] <==> InWindow(cfg.ring, Returned(s'), Published(s'), x)
    {
      WindowGrows(cfg.ring, Returned(s), Published(s), x);
    }
  }

  lemma SpinningKeepsInv<V>(cfg: Config, s: State<V>)
    requires Inv(cfg, s) && s.producer.Spinning?
    ensures Inv(cfg, ProducerStep(cfg, s))
  {
    var s' := ProducerStep(cfg, s);
    if s' != s {
      if Published(s) == Returned(s) + |cfg.ring| {
        FullTurn(cfg.ring, Returned(s), Published(s));
      }
      QuietKeepsSlots(cfg, s, s');
    }
  }

  lemma ProducerKeepsInv<V>(cfg: Config, s: State<V>)
    requires Inv(cfg, s) && cfg.width.Unbounded?
    ensures Inv(cfg, ProducerStep(cfg, s))
  {
    match s.producer
    case Spinning(_, _) => SpinningKeepsInv(cfg, s);
    case Storing(_, _) => StoringKeepsInv(cfg, s);
    case Publishing(_) => PublishingKeepsInv(cfg, s);
    case _ =>
      QuietKeepsSlots(cfg, s, ProducerStep(cfg, s));
  }

  lemma WaitingKeepsInv<V>(cfg: Config, s: State<V>)
    requires Inv(cfg, s) && s.consumer.Waiting?
    ensures Inv(cfg, ConsumerStep(cfg, s))
  {
    var s' := ConsumerStep(cfg, s);
    if s' != s {
      QuietKeepsSlots(cfg, s, s');
    }
  }

  lemma TakingKeepsInv<V>(cfg: Config, s: State<V>)
    requires Inv(cfg, s) && s.consumer.Taking?
    ensures Inv(cfg, ConsumerStep(cfg, s))
  {
    var s' := ConsumerStep(cfg, s);
    var a := s.consumer.ticket;
    assert s.elements[Slot(cfg.ring, a)] == Some(s.pushed[a]);
    forall p: nat | Read(s') <= p < Written(s')
      ensures s'.elements[Slot(cfg.ring, p)] == Some(s'.pushed[p])
    {
      assert s.elements[Slot(cfg.ring, p)] == Some(s.pushed[p]);
      if Slot(cfg.ring, p) == Slot(cfg.ring, a) {
        WindowInjective(cfg.ring, p, a);
      }
    }
    forall x | 0 <= x < |s'.elements| && s'.elements[x].Some?
      ensures InWindow(cfg.ring, Read(s'), Written(s'), x)
    {
      WindowShrinks(cfg.ring, Read(s), Written(s), x);
    }
  }

  lemma ClearingKeepsInv<V>(cfg: Config, s: State<V>)
    requires Inv(cfg, s) && s.consumer.Clearing?
    ensures Inv(cfg, ConsumerStep(cfg, s))
  {
    var s' := ConsumerStep(cfg, s);
    forall x | 0 <= x < |s'.full|
      ensures s'.full[x] <==> InWindow(cfg.ring, Returned(s'), Published(s'), x)
    {
      WindowShrinks(cfg.ring, Returned(s), Published(s), x);
    }
  }

  lemma ConsumerKeepsInv<V>(cfg: Config, s: State<V>)
    requires Inv(cfg, s) && cfg.width.Unbounded?
    ensures Inv(cfg, ConsumerStep(cfg, s))
  {
    match s.consumer
    case Waiting(_) => WaitingKeepsInv(cfg, s);
    case Taking(_) => TakingKeepsInv(cfg, s);
    case Clearing(_, _) => ClearingKeepsInv(cfg, s);
    case _ =>
      QuietKeepsSlots(cfg, s, ConsumerStep(cfg, s));
  }

  lemma CallKeepsInv<V>(cfg: Config, s: State<V>, a: Action<V>)
    requires Inv(cfg, s) && cfg.width.Unbounded?
    requires !a.ProducerMoves? && !a.ConsumerMoves?
    ensures Inv(cfg, Step(cfg, s, a))
  {
    var s' := Step(cfg, s, a);
    if s' != s {
      QuietKeepsSlots(cfg, s, s');
      match a
      case CallPush(v) => assert s'.pushed[s.head] == v;
      case CallPop => assert s'.consumer == Waiting(s.tail);
      case _ =>
    }
  }

  lemma InvStep<V>(cfg: Config, s: State<V>, a: Action<V>)
    requires Inv(cfg, s) && cfg.width.Unbounded?
    ensures Inv(cfg, Step(cfg, s, a))
  {
    match a
    case ProducerMoves => ProducerKeepsInv(cfg, s);
    case ConsumerMoves => ConsumerKeepsInv(cfg, s);
    case _ => CallKeepsInv(cfg, s, a);
  }

  lemma {:induction false} InvHolds<V>(cfg: Config, acts: seq<Action<V>>)
    requires cfg.width.Unbounded?
    ensures Inv(cfg, Run(cfg, acts))
  {
    if acts != [] {
      InvHolds(cfg, acts[..|acts| - 1]);
      InvStep(cfg, Run(cfg, acts[..|acts| - 1]), acts[|acts| - 1]);
    }
  }

  // ---------- The elements that are pushed ----------

  /** The argument of the last push that the producer has called. */
  function LastArgument<V>(cfg: Config, acts: seq<Action<V>>): Option<V> {
    if acts == [] then None
    else
      var front, a := acts[..|acts| - 1], acts[|acts| - 1];
      if (a.CallPush? || a.CallTryPush?) && Run(cfg, front).producer.Ready? then Some(a.v)
      else LastArgument(cfg, front)
  }

  /** The arguments of the calls that have claimed a position, in that order. */
  function Arguments<V>(cfg: Config, acts: seq<Action<V>>): seq<Option<V>> {
    if acts == [] then []
    else
      var front := acts[..|acts| - 1];
      Arguments(cfg, front) +
      if Run(cfg, acts).head == Run(cfg, front).head then [] else [LastArgument(cfg, acts)]
  }

  function Somes<V>(elements: seq<V>): seq<Option<V>> {
    seq(|elements|, k requires 0 <= k < |elements| => Some(elements[k]))
  }

  /** Between its call and the write the producer carries the argument of the call. */
  ghost predicate Carries<V>(p: Producer<V>, argument: Option<V>) {
    p.SawHead? || p.SawBoth? || p.Spinning? || p.Storing? ==> argument == Some(p.v)
  }

  /** `pushed` is what the calls that claimed were given, in the order of their claims, on
      unbounded and on 64-bit counters. */
  lemma {:induction false} PushedAreTheArguments<V>(cfg: Config, acts: seq<Action<V>>)
    ensures Somes(Run(cfg, acts).pushed) == Arguments(cfg, acts)
    ensures Carries(Run(cfg, acts).producer, LastArgument(cfg, acts))
  {
    if acts != [] {
      var front := acts[..|acts| - 1];
      PushedAreTheArguments(cfg, front);
      PushedGrowsByClaims(cfg, Run(cfg, front), acts[|acts| - 1], LastArgument(cfg, acts));
    }
  }

  lemma PushedGrowsByClaims<V>(cfg: Config, s: State<V>, a: Action<V>, argument: Option<V>)
    requires |s.full| == |s.elements| == |cfg.ring| && Carries(s.producer, argument)
    requires (a.CallPush? || a.CallTryPush?) && s.producer.Ready? ==> argument == Some(a.v)
    ensures var s' := Step(cfg, s, a);
            Carries(s'.producer, argument) &&
            Somes(s'.pushed) == Somes(s.pushed) + if s'.head == s.head then [] else [argument]
  {
  }

  // ---------- Results for every interleaving ----------

  /** First in, first out: whatever the interleaving and the mix of blocking and `try_`
      calls, what has been returned is a prefix of what has been pushed, which is what
      the calls that claimed were given; and the counters stay within one position of the queue's bounds. */
  lemma Fifo<V>(cfg: Config, acts: seq<Action<V>>)
    requires cfg.width.Unbounded?
    ensures var s := Run(cfg, acts);
            s.returned <= s.pushed && Somes(s.returned) <= Somes(s.pushed) == Arguments(cfg, acts) &&
            -1 <= s.head - s.tail <= |cfg.ring| + 1 &&
            (s.producer.Ready? && s.consumer.Rested? ==> s.head - s.tail == |s.pushed| - |s.returned| <= |cfg.ring|)
  {
    InvHolds(cfg, acts);
    PushedAreTheArguments(cfg, acts);
  }

  /** No slot is overwritten before it is read and none is read before it is written: the
      producer writes only where no element is, and the consumer reads exactly the element
      pushed under its position, which is initialised. */
  lemma HandoffIsSafe<V>(cfg: Config, acts: seq<Action<V>>)
    requires cfg.width.Unbounded?
    ensures var s := Run(cfg, acts);
            (s.producer.Storing? ==> s.elements[Slot(cfg.ring, s.producer.ticket)].None?) &&
            (s.consumer.Taking? ==>
               s.consumer.ticket == |s.returned| < |s.pushed| &&
               s.elements[Slot(cfg.ring, s.consumer.ticket)] == Some(s.pushed[s.consumer.ticket]))
  {
    InvHolds(cfg, acts);
    var s := Run(cfg, acts);
    if s.producer.Storing? {
      StoresIntoNothing(cfg, s);
    }
    if s.consumer.Taking? {
      TakesThePushed(cfg, s);
    }
  }

  lemma StoresIntoNothing<V>(cfg: Config, s: State<V>)
    requires Inv(cfg, s) && s.producer.Storing?
    ensures s.elements[Slot(cfg.ring, s.producer.ticket)].None?
  {
    OutsideWindow(cfg.ring, Read(s), Written(s));
  }

  lemma TakesThePushed<V>(cfg: Config, s: State<V>)
    requires Inv(cfg, s) && s.consumer.Taking?
    ensures s.consumer.ticket == |s.returned| < |s.pushed|
    ensures s.elements[Slot(cfg.ring, s.consumer.ticket)] == Some(s.pushed[s.consumer.ticket])
  {
  }

  /** The producer's slot test fails: it spins on. */
  predicate ProducerBlocked<V>(cfg: Config, s: State<V>)
    requires |s.full| == |cfg.ring|
  {
    s.producer.Spinning? && s.full[Slot(cfg.ring, s.producer.ticket)]
  }

  predicate ConsumerBlocked<V>(cfg: Config, s: State<V>)
    requires |s.full| == |cfg.ring|
  {
    s.consumer.Waiting? && !s.full[Slot(cfg.ring, s.consumer.ticket)]
  }

  /** A spinning producer is held up exactly while `capacity` earlier elements are out, a
      waiting consumer exactly while every published element has been returned; so never
      are both held up. */
  lemma NoDeadlock<V>(cfg: Config, acts: seq<Action<V>>)
    requires cfg.width.Unbounded?
    ensures var s := Run(cfg, acts);
            (s.producer.Spinning? ==> (ProducerBlocked(cfg, s) <==> |s.pushed| - 1 == |s.returned| + |cfg.ring|)) &&
            (s.consumer.Waiting? ==> (ConsumerBlocked(cfg, s) <==> Published(s) == |s.returned|)) &&
            !(ProducerBlocked(cfg, s) && ConsumerBlocked(cfg, s))
  {
    InvHolds(cfg, acts);
    var s := Run(cfg, acts);
    if s.producer.Spinning? {
      ProducerHeldUp(cfg, s);
    }
    if s.consumer.Waiting? {
      ConsumerHeldUp(cfg, s);
    }
  }

  lemma ProducerHeldUp<V>(cfg: Config, s: State<V>)
    requires Inv(cfg, s) && s.producer.Spinning?
    ensures ProducerBlocked(cfg, s) <==> |s.pushed| - 1 == |s.returned| + |cfg.ring|
  {
    OutsideWindow(cfg.ring, Returned(s), Published(s));
    if Published(s) == Returned(s) + |cfg.ring| {
      FullTurn(cfg.ring, Returned(s), Published(s));
    }
  }

  lemma ConsumerHeldUp<V>(cfg: Config, s: State<V>)
    requires Inv(cfg, s) && s.consumer.Waiting?
    ensures ConsumerBlocked(cfg, s) <==> Published(s) == |s.returned|
  {
    if Returned(s) < Published(s) {
      assert Slot(cfg.ring, Returned(s)) == Slot(cfg.ring, s.consumer.ticket);
      assert InWindow(cfg.ring, Returned(s), Published(s), Slot(cfg.ring, s.consumer.ticket));
    }
  }

  // ---------- Draining ----------

  /** Neither thread owns a position. */
  predicate Settled<V>(s: State<V>) {
    !Owes(s.producer) && !Expects(s.consumer)
  }

  /** The slot steps the claimed calls have left. */
  function StepsLeft<V>(s: State<V>): nat {
    ProducerStepsLeft(s.producer) + ConsumerStepsLeft(s.consumer)
  }

  function ProducerStepsLeft<V>(p: Producer<V>): nat {
    match p
    case Spinning(_, _) => 3
    case Storing(_, _) => 2
    case Publishing(_) => 1
    case _ => 0
  }

  function ConsumerStepsLeft<V>(c: Consumer<V>): nat {
    match c
    case Waiting(_) => 3
    case Taking(_) => 2
    case Clearing(_, _) => 1
    case _ => 0
  }

  predicate SameCounters<V>(s: State<V>, s': State<V>) {
    s'.head == s.head && s'.tail == s.tail
  }

  /** The claimed calls of both threads can return without a new claim. */
  ghost predicate Drains<V(!new)>(cfg: Config, acts: seq<Action<V>>) {
    exists more: seq<Action<V>> ::
      Settled(Run(cfg, acts + more)) && SameCounters(Run(cfg, acts), Run(cfg, acts + more))
  }

  /** Within one turn, a thread that owns a position is not held up, or the other is not. */
  lemma SomeoneMoves<V>(cfg: Config, s: State<V>) returns (a: Action<V>)
    requires Inv(cfg, s) && s.tail <= s.head <= s.tail + |cfg.ring| && !Settled(s)
    ensures StepsLeft(Step(cfg, s, a)) < StepsLeft(s) && SameCounters(s, Step(cfg, s, a))
  {
    if s.producer.Spinning? {
      ProducerHeldUp(cfg, s);
    }
    if s.consumer.Waiting? {
      ConsumerHeldUp(cfg, s);
    }
    if Owes(s.producer) && !ProducerBlocked(cfg, s) {
      a := ProducerMoves;
    } else {
      a := ConsumerMoves;
      if s.consumer.Taking? {
        TakesThePushed(cfg, s);
      }
    }
  }

  lemma {:induction false} Drain<V>(cfg: Config, acts: seq<Action<V>>) returns (more: seq<Action<V>>)
    requires cfg.width.Unbounded?
    requires var s := Run(cfg, acts); s.tail <= s.head <= s.tail + |cfg.ring|
    ensures Settled(Run(cfg, acts + more)) && SameCounters(Run(cfg, acts), Run(cfg, acts + more))
    decreases StepsLeft(Run(cfg, acts))
  {
    InvHolds(cfg, acts);
    if Settled(Run(cfg, acts)) {
      more := [];
      assert acts + more == acts;
    } else {
      var a := SomeoneMoves(cfg, Run(cfg, acts));
      Extended(cfg, acts, a);
      var rest := Drain(cfg, acts + [a]);
      more := [a] + rest;
      assert acts + more == acts + [a] + rest;
    }
  }

  /** The claimed calls of both threads can return exactly when the counters are within one
      turn of the ring. */
  lemma DrainsExactlyWithinOneTurn<V(!new)>(cfg: Config, acts: seq<Action<V>>)
    requires cfg.width.Unbounded?
    ensures var s := Run(cfg, acts);
            Drains(cfg, acts) <==> s.tail <= s.head <= s.tail + |cfg.ring|
  {
    var s := Run(cfg, acts);
    if s.tail <= s.head <= s.tail + |cfg.ring| {
      var more := Drain(cfg, acts);
    }
    if Drains(cfg, acts) {
      var more: seq<Action<V>> :|
        Settled(Run(cfg, acts + more)) && SameCounters(s, Run(cfg, acts + more));
      InvHolds(cfg, acts + more);
    }
  }

  // ---------- What every call does ----------

  /** The producer, ready at step `a`, calls `try_push` there; its next two steps are `m` and `b`. */
  ghost predicate TryPushSteps<V>(cfg: Config, acts: seq<Action<V>>, a: nat, m: nat, b: nat, v: V) {
    a < m < b < |acts| && Run(cfg, acts[..a]).producer.Ready? &&
    acts[a] == CallTryPush(v) && acts[m] == ProducerMoves && acts[b] == ProducerMoves &&
    forall k :: a < k < b && k != m ==> acts[k] != ProducerMoves
  }

  ghost predicate TryPopSteps<V>(cfg: Config, acts: seq<Action<V>>, a: nat, m: nat, b: nat) {
    a < m < b < |acts| && Run(cfg, acts[..a]).consumer.Rested? &&
    acts[a] == CallTryPop && acts[m] == ConsumerMoves && acts[b] == ConsumerMoves &&
    forall k :: a < k < b && k != m ==> acts[k] != ConsumerMoves
  }

  lemma RunNext<V>(cfg: Config, acts: seq<Action<V>>, k: nat)
    requires k < |acts|
    ensures Run(cfg, acts[..k + 1]) == Step(cfg, Run(cfg, acts[..k]), acts[k])
  {
    assert acts[..k + 1][..k] == acts[..k];
  }

  /** Inside a call nothing that the other thread does, and no further call, moves this side. */
  lemma ProducerUndisturbed<V>(cfg: Config, s: State<V>, a: Action<V>)
    requires |s.full| == |s.elements| == |cfg.ring| && !s.producer.Ready? && a != ProducerMoves
    ensures var s' := Step(cfg, s, a);
            s'.producer == s.producer && s'.head == s.head && s'.pushed == s.pushed
  {
  }

  lemma ConsumerUndisturbed<V>(cfg: Config, s: State<V>, a: Action<V>)
    requires |s.full| == |s.elements| == |cfg.ring| && !s.consumer.Rested? && a != ConsumerMoves
    ensures var s' := Step(cfg, s, a);
            s'.consumer == s.consumer && s'.tail == s.tail && s'.returned == s.returned
  {
  }

  lemma {:induction false} InsideTryPush<V>(cfg: Config, acts: seq<Action<V>>, a: nat, m: nat, b: nat, v: V, k: nat)
    requires TryPushSteps(cfg, acts, a, m, b, v) && a < k <= b
    ensures var s0, s := Run(cfg, acts[..a]), Run(cfg, acts[..k]);
            s.head == s0.head && s.pushed == s0.pushed &&
            s.producer == if k <= m then SawHead(v, s0.head) else SawBoth(v, s0.head, Run(cfg, acts[..m]).tail)
    decreases k
  {
    RunNext(cfg, acts, k - 1);
    if k > a + 1 {
      InsideTryPush(cfg, acts, a, m, b, v, k - 1);
      if k - 1 != m {
        ProducerUndisturbed(cfg, Run(cfg, acts[..k - 1]), acts[k - 1]);
      }
    }
  }

  /** A `try_push` takes three steps up to its verdict.  With the head `h` of the first and the
      tail `t` of the second it claims position `h` for its element at the third exactly when
      `0 <= h - t < capacity`; otherwise it returns and nothing else happens. */
  lemma TryPushOutcome<V>(cfg: Config, acts: seq<Action<V>>, a: nat, m: nat, b: nat, v: V)
    requires cfg.width.Unbounded? && TryPushSteps(cfg, acts, a, m, b, v)
    ensures var h, t := Run(cfg, acts[..a]).head, Run(cfg, acts[..m]).tail;
            var s := Run(cfg, acts[..b]);
            Run(cfg, acts[..b + 1]) ==
            if 0 <= h - t < |cfg.ring| then s.(head := h + 1, producer := Spinning(v, h), pushed := s.pushed + [v])
            else s.(producer := Ready)
  {
    InsideTryPush(cfg, acts, a, m, b, v, b);
    RunNext(cfg, acts, b);
  }

  lemma {:induction false} InsideTryPop<V>(cfg: Config, acts: seq<Action<V>>, a: nat, m: nat, b: nat, k: nat)
    requires TryPopSteps(cfg, acts, a, m, b) && a < k <= b
    ensures var s0, s := Run(cfg, acts[..a]), Run(cfg, acts[..k]);
            s.tail == s0.tail && s.returned == s0.returned &&
            s.consumer == if k <= m then SawTail(s0.tail) else SawSizes(s0.tail, Run(cfg, acts[..m]).head)
    decreases k
  {
    RunNext(cfg, acts, k - 1);
    if k > a + 1 {
      InsideTryPop(cfg, acts, a, m, b, k - 1);
      if k - 1 != m {
        ConsumerUndisturbed(cfg, Run(cfg, acts[..k - 1]), acts[k - 1]);
      }
    }
  }

  /** A `try_pop` takes three steps up to its verdict.  With the tail `t` of the first and the
      head `h` of the second it claims position `t` at the third exactly when `h != t`; otherwise it
      returns and nothing else happens. */
  lemma TryPopOutcome<V>(cfg: Config, acts: seq<Action<V>>, a: nat, m: nat, b: nat)
    requires cfg.width.Unbounded? && TryPopSteps(cfg, acts, a, m, b)
    ensures var t, h := Run(cfg, acts[..a]).tail, Run(cfg, acts[..m]).head;
            var s := Run(cfg, acts[..b]);
            Run(cfg, acts[..b + 1]) ==
            if h != t then s.(tail := t + 1, consumer := Waiting(t)) else s.(consumer := Rested)
  {
    InsideTryPop(cfg, acts, a, m, b, b);
    RunNext(cfg, acts, b);
  }

  /** At every moment of every run, a thread that owns a position and is not held up is one step
      nearer to its return after its next step, and returns with the last of three; one that
      is held up changes nothing. */
  lemma OwnersGoOn<V>(cfg: Config, acts: seq<Action<V>>)
    requires cfg.width.Unbounded?
    ensures var s := Run(cfg, acts); var p, c := ProducerStep(cfg, s), ConsumerStep(cfg, s);
            (ProducerBlocked(cfg, s) ==> p == s) && (ConsumerBlocked(cfg, s) ==> c == s) &&
            (Owes(s.producer) && !ProducerBlocked(cfg, s) ==>
               ProducerStepsLeft(p.producer) == ProducerStepsLeft(s.producer) - 1 &&
               (p.producer.Ready? <==> ProducerStepsLeft(s.producer) == 1)) &&
            (Expects(s.consumer) && !ConsumerBlocked(cfg, s) ==>
               ConsumerStepsLeft(c.consumer) == ConsumerStepsLeft(s.consumer) - 1 &&
               (c.consumer.Rested? <==> ConsumerStepsLeft(s.consumer) == 1))
  {
    InvHolds(cfg, acts);
    var s := Run(cfg, acts);
    if s.consumer.Taking? {
      TakesThePushed(cfg, s);
    }
  }

  lemma Extended<V>(cfg: Config, acts: seq<Action<V>>, a: Action<V>)
    ensures Run(cfg, acts + [a]) == Step(cfg, Run(cfg, acts), a)
  {
    assert (acts + [a])[..|acts|] == acts;
  }

  /** Three moves of the producer alone from a claimed position whose slot is EMPTY. */
  lemma FinishPush<V>(cfg: Config, acts: seq<Action<V>>) returns (more: seq<Action<V>>)
    requires cfg.width.Unbounded?
    requires var s := Run(cfg, acts); s.producer.Spinning? && |s.pushed| <= |s.returned| + |cfg.ring|
    ensures more == acts + [ProducerMoves] + [ProducerMoves] + [ProducerMoves]
    ensures var s, s' := Run(cfg, acts), Run(cfg, more);
            s'.producer.Ready? && s'.pushed == s.pushed && s'.head == s.head && s'.tail == s.tail &&
            s'.consumer == s.consumer && s'.returned == s.returned
  {
    NoDeadlock(cfg, acts);
    Extended(cfg, acts, ProducerMoves);
    more := acts + [ProducerMoves];
    Extended(cfg, more, ProducerMoves);
    more := more + [ProducerMoves];
    Extended(cfg, more, ProducerMoves);
    more := more + [ProducerMoves];
  }

  /** Three moves of the consumer alone from a claimed position that has been published. */
  lemma FinishPop<V>(cfg: Config, acts: seq<Action<V>>) returns (more: seq<Action<V>>)
    requires cfg.width.Unbounded?
    requires var s := Run(cfg, acts); s.consumer.Waiting? && |s.returned| < Published(s) <= |s.pushed|
    ensures more == acts + [ConsumerMoves] + [ConsumerMoves] + [ConsumerMoves]
    ensures var s, s' := Run(cfg, acts), Run(cfg, more);
            s'.consumer.Rested? && s'.returned == s.returned + [s.pushed[|s.returned|]] && s'.tail == s.tail &&
            s'.head == s.head && s'.producer == s.producer && s'.pushed == s.pushed
  {
    NoDeadlock(cfg, acts);
    Extended(cfg, acts, ConsumerMoves);
    more := acts + [ConsumerMoves];
    HandoffIsSafe(cfg, more);
    Extended(cfg, more, ConsumerMoves);
    more := more + [ConsumerMoves];
    Extended(cfg, more, ConsumerMoves);
    more := more + [ConsumerMoves];
  }

  /** Left alone, a `push` that finds room returns after four steps with its element appended ... */
  lemma PushAlone<V>(cfg: Config, acts: seq<Action<V>>, v: V) returns (more: seq<Action<V>>)
    requires cfg.width.Unbounded?
    requires var s := Run(cfg, acts); s.producer.Ready? && |s.pushed| < |s.returned| + |cfg.ring|
    ensures more == acts + [CallPush(v)] + [ProducerMoves] + [ProducerMoves] + [ProducerMoves]
    ensures var s, s' := Run(cfg, acts), Run(cfg, more);
            s'.producer.Ready? && s'.pushed == s.pushed + [v] && s'.head == s.head + 1 && s'.tail == s.tail &&
            s'.consumer == s.consumer && s'.returned == s.returned
  {
    Extended(cfg, acts, CallPush(v));
    more := FinishPush(cfg, acts + [CallPush(v)]);
  }

  /** ... a `try_push` after six, unless a pop waits ahead of the head ... */
  lemma TryPushAlone<V>(cfg: Config, acts: seq<Action<V>>, v: V) returns (more: seq<Action<V>>)
    requires cfg.width.Unbounded?
    requires var s := Run(cfg, acts);
             s.producer.Ready? && |s.pushed| < |s.returned| + |cfg.ring| && s.tail <= s.head
    ensures more == acts + [CallTryPush(v)] + [ProducerMoves] + [ProducerMoves] +
                    [ProducerMoves] + [ProducerMoves] + [ProducerMoves]
    ensures var s, s' := Run(cfg, acts), Run(cfg, more);
            s'.producer.Ready? && s'.pushed == s.pushed + [v] && s'.head == s.head + 1 && s'.tail == s.tail &&
            s'.consumer == s.consumer && s'.returned == s.returned
  {
    InvHolds(cfg, acts);
    Extended(cfg, acts, CallTryPush(v));
    more := acts + [CallTryPush(v)];
    Extended(cfg, more, ProducerMoves);
    more := more + [ProducerMoves];
    Extended(cfg, more, ProducerMoves);
    more := FinishPush(cfg, more + [ProducerMoves]);
  }

  /** ... a `pop` after four with the oldest element once that has been published ... */
  lemma PopAlone<V>(cfg: Config, acts: seq<Action<V>>) returns (more: seq<Action<V>>)
    requires cfg.width.Unbounded?
    requires var s := Run(cfg, acts); s.consumer.Rested? && |s.returned| < Published(s) <= |s.pushed|
    ensures more == acts + [CallPop] + [ConsumerMoves] + [ConsumerMoves] + [ConsumerMoves]
    ensures var s, s' := Run(cfg, acts), Run(cfg, more);
            s'.consumer.Rested? && s'.returned == s.returned + [s.pushed[|s.returned|]] && s'.tail == s.tail + 1 &&
            s'.head == s.head && s'.producer == s.producer && s'.pushed == s.pushed
  {
    Extended(cfg, acts, CallPop);
    more := FinishPop(cfg, acts + [CallPop]);
  }

  /** ... and a `try_pop` after six. */
  lemma TryPopAlone<V>(cfg: Config, acts: seq<Action<V>>) returns (more: seq<Action<V>>)
    requires cfg.width.Unbounded?
    requires var s := Run(cfg, acts); s.consumer.Rested? && |s.returned| < Published(s) <= |s.pushed|
    ensures more == acts + [CallTryPop] + [ConsumerMoves] + [ConsumerMoves] +
                    [ConsumerMoves] + [ConsumerMoves] + [ConsumerMoves]
    ensures var s, s' := Run(cfg, acts), Run(cfg, more);
            s'.consumer.Rested? && s'.returned == s.returned + [s.pushed[|s.returned|]] && s'.tail == s.tail + 1 &&
            s'.head == s.head && s'.producer == s.producer && s'.pushed == s.pushed
  {
    InvHolds(cfg, acts);
    Extended(cfg, acts, CallTryPop);
    more := acts + [CallTryPop];
    Extended(cfg, more, ConsumerMoves);
    more := more + [ConsumerMoves];
    Extended(cfg, more, ConsumerMoves);
    more := FinishPop(cfg, more + [ConsumerMoves]);
  }

  // ---------- Verdicts ----------

  /** A `try_push` that has read both counters is going to return false. */
  predicate WillRefusePush<V>(cfg: Config, s: State<V>)
    requires |s.full| == |s.elements| == |cfg.ring|
  {
    s.producer.SawBoth? && ProducerStep(cfg, s).producer.Ready?
  }

  predicate WillRefusePop<V>(cfg: Config, s: State<V>)
    requires |s.full| == |s.elements| == |cfg.ring|
  {
    s.consumer.SawSizes? && ConsumerStep(cfg, s).consumer.Rested?
  }

  /** Or it claims the position it has loaded. */
  ghost predicate WillClaimPush<V>(cfg: Config, s: State<V>)
    requires |s.full| == |s.elements| == |cfg.ring|
  {
    s.producer.SawBoth? &&
    var s' := ProducerStep(cfg, s);
    s'.producer == Spinning(s.producer.v, s.producer.h) && s'.head == s.producer.h + 1 == s.head + 1
  }

  predicate WillClaimPop<V>(cfg: Config, s: State<V>)
    requires |s.full| == |s.elements| == |cfg.ring|
  {
    s.consumer.SawSizes? &&
    var s' := ConsumerStep(cfg, s);
    s'.consumer == Waiting(s.consumer.t) && s'.tail == s.consumer.t + 1 == s.tail + 1
  }

  /** The fate of a `try_push` is sealed when it loads the tail, and stays sealed: it returns
      false exactly when at that moment `capacity` positions were taken, or a blocked
      pop had already claimed the next one, and otherwise claims. */
  lemma PushVerdict<V>(cfg: Config, acts: seq<Action<V>>)
    requires cfg.width.Unbounded? && Run(cfg, acts).producer.SawHead?
    ensures var s := Run(cfg, acts);
            (WillRefusePush(cfg, ProducerStep(cfg, s)) <==> s.head - s.tail == |cfg.ring| || s.tail == s.head + 1) &&
            (WillRefusePush(cfg, ProducerStep(cfg, s)) || WillClaimPush(cfg, ProducerStep(cfg, s)))
  {
    InvHolds(cfg, acts);
  }

  /** `try_pop` returns nothing exactly when the queue is empty at the moment it loads the head,
      and otherwise claims. */
  lemma PopVerdict<V>(cfg: Config, acts: seq<Action<V>>)
    requires cfg.width.Unbounded? && Run(cfg, acts).consumer.SawTail?
    ensures var s := Run(cfg, acts);
            (WillRefusePop(cfg, ConsumerStep(cfg, s)) <==> s.head == s.tail) &&
            (WillRefusePop(cfg, ConsumerStep(cfg, s)) || WillClaimPop(cfg, ConsumerStep(cfg, s)))
  {
    InvHolds(cfg, acts);
  }

  /** The compare-and-swap of TOTAL_ORDER never fails here, and nothing the other thread
      does afterwards changes a verdict. */
  lemma VerdictIsStable<V>(cfg: Config, acts: seq<Action<V>>, a: Action<V>)
    requires cfg.width.Unbounded?
    ensures var s := Run(cfg, acts); var s' := Step(cfg, s, a);
            (s.producer.SawBoth? && s'.producer == s.producer ==> WillRefusePush(cfg, s') == WillRefusePush(cfg, s)) &&
            (s.consumer.SawSizes? && s'.consumer == s.consumer ==> WillRefusePop(cfg, s') == WillRefusePop(cfg, s)) &&
            (s.producer.SawBoth? ==> s.head == s.producer.h) &&
            (s.consumer.SawSizes? ==> s.tail == s.consumer.t)
  {
    InvHolds(cfg, acts);
    InvStep(cfg, Run(cfg, acts), a);
  }

  ghost predicate ConsumerOnlyTries<V>(acts: seq<Action<V>>) {
    forall k :: 0 <= k < |acts| ==> !acts[k].CallPop?
  }

  /** A consumer that only tries never gets ahead of the head ... */
  lemma {:induction false} TailStaysBehind<V>(cfg: Config, acts: seq<Action<V>>)
    requires cfg.width.Unbounded? && ConsumerOnlyTries(acts)
    ensures Run(cfg, acts).tail <= Run(cfg, acts).head
  {
    if acts != [] {
      TailStaysBehind(cfg, acts[..|acts| - 1]);
      InvHolds(cfg, acts[..|acts| - 1]);
    }
  }

  /** ... so then `try_push` returns false exactly when the queue is full at the tail load. */
  lemma PushVerdictIsExact<V>(cfg: Config, acts: seq<Action<V>>)
    requires cfg.width.Unbounded? && ConsumerOnlyTries(acts)
    requires Run(cfg, acts).producer.SawHead?
    ensures var s := Run(cfg, acts);
            WillRefusePush(cfg, ProducerStep(cfg, s)) <==> s.head - s.tail == |cfg.ring|
  {
    PushVerdict(cfg, acts);
    TailStaysBehind(cfg, acts);
  }

  /** With a blocking pop it need not be full: an empty queue of any capacity refuses
      while the consumer waits in `pop`. */
  lemma WaitingPopRefusesPush<V>(cfg: Config, v: V)
    requires cfg.width.Unbounded?
    ensures var s := Run(cfg, [CallPop, CallTryPush(v)]);
            s.producer.SawHead? && s.pushed == [] && WillRefusePush(cfg, ProducerStep(cfg, s))
  {
    var acts: seq<Action<V>> := [CallPop, CallTryPush(v)];
    assert acts[..1] == [CallPop] && acts[..1][..0] == [];
    assert Run(cfg, acts[..1]) == Step(cfg, Init<V>(cfg), CallPop);
    PushVerdict(cfg, acts);
  }

  // ---------- Counters as 64-bit words ----------

  function Word(n: nat): nat { n % WORD }

  function WordProducer<V>(p: Producer<V>): Producer<V> {
    match p
    case Ready => Ready
    case SawHead(v, h) => SawHead(v, Word(h))
    case SawBoth(v, h, t) => SawBoth(v, Word(h), Word(t))
    case Spinning(v, ticket) => Spinning(v, Word(ticket))
    case Storing(v, ticket) => Storing(v, Word(ticket))
    case Publishing(ticket) => Publishing(Word(ticket))
  }

  function WordConsumer<V>(c: Consumer<V>): Consumer<V> {
    match c
    case Rested => Rested
    case SawTail(t) => SawTail(Word(t))
    case SawSizes(t, h) => SawSizes(Word(t), Word(h))
    case Waiting(ticket) => Waiting(Word(ticket))
    case Taking(ticket) => Taking(Word(ticket))
    case Clearing(v, ticket) => Clearing(v, Word(ticket))
  }

  /** The same state with every counter and every loaded value cut to 64 bits. */
  function WordState<V>(s: State<V>): State<V> {
    s.(head := Word(s.head), tail := Word(s.tail),
       producer := WordProducer(s.producer), consumer := WordConsumer(s.consumer))
  }

  lemma WordNext(n: nat)
    ensures Next(Bits64, Word(n)) == Word(n + 1)
  {
  }

  lemma WordSlot(ring: Ring, n: nat)
    requires IsPow2(|ring|) && |ring| <= WORD / 2
    ensures Slot(ring, Word(n)) == Slot(ring, n)
  {
    WordModPow2(n, |ring|);
  }

  lemma WordDifference(h: nat, t: nat, capacity: nat)
    requires 1 <= capacity <= WORD / 2
    requires -1 <= h - t <= capacity + 1
    ensures LooksFull(Bits64, Word(h), Word(t), capacity) <==> LooksFull(Unbounded, h, t, capacity)
    ensures Word(h) == Word(t) <==> h == t
  {
    assert (Word(h) - Word(t)) % WORD == (h - t) % WORD;
  }

  lemma WordProducerStep<V>(cfg: Config, s: State<V>)
    requires cfg.width.Unbounded? && IsPow2(|cfg.ring|) && |cfg.ring| <= WORD / 2
    requires Inv(cfg, s)
    ensures ProducerStep(cfg.(width := Bits64), WordState(s)) == WordState(ProducerStep(cfg, s))
  {
    match s.producer
    case SawBoth(v, h, t) =>
      WordDifference(h, t, |cfg.ring|);
      WordNext(s.head);
    case Spinning(v, ticket) => WordSlot(cfg.ring, ticket);
    case Storing(v, ticket) => WordSlot(cfg.ring, ticket);
    case Publishing(ticket) => WordSlot(cfg.ring, ticket);
    case _ =>
  }

  lemma WordTryPop<V>(cfg: Config, s: State<V>)
    requires cfg.width.Unbounded? && |cfg.ring| <= WORD / 2
    requires Inv(cfg, s) && s.consumer.SawSizes?
    ensures ConsumerStep(cfg.(width := Bits64), WordState(s)) == WordState(ConsumerStep(cfg, s))
  {
    WordDifference(s.consumer.h, s.consumer.t, |cfg.ring|);
    WordNext(s.tail);
  }

  lemma WordConsumerStep<V>(cfg: Config, s: State<V>)
    requires cfg.width.Unbounded? && IsPow2(|cfg.ring|) && |cfg.ring| <= WORD / 2
    requires Inv(cfg, s)
    ensures ConsumerStep(cfg.(width := Bits64), WordState(s)) == WordState(ConsumerStep(cfg, s))
  {
    match s.consumer
    case SawSizes(t, h) => WordTryPop(cfg, s);
    case Waiting(ticket) => WordSlot(cfg.ring, ticket);
    case Taking(ticket) => WordSlot(cfg.ring, ticket);
    case Clearing(v, ticket) => WordSlot(cfg.ring, ticket);
    case _ =>
  }

  lemma WordStep<V>(cfg: Config, s: State<V>, a: Action<V>)
    requires cfg.width.Unbounded? && IsPow2(|cfg.ring|) && |cfg.ring| <= WORD / 2
    requires Inv(cfg, s)
    ensures Step(cfg.(width := Bits64), WordState(s), a) == WordState(Step(cfg, s, a))
  {
    match a
    case ProducerMoves => WordProducerStep(cfg, s);
    case ConsumerMoves => WordConsumerStep(cfg, s);
    case CallPush(v) => WordNext(s.head);
    case CallPop => WordNext(s.tail);
    case _ =>
  }

  /** Every schedule run on 64-bit counters gives the run on unbounded counters, cut to
      64 bits: the same slots, decisions, elements and results across any number of wraps. */
  lemma {:induction false} WrappingIsInvisible<V>(cfg: Config, acts: seq<Action<V>>)
    requires cfg.width.Unbounded? && IsPow2(|cfg.ring|) && |cfg.ring| <= WORD / 2
    ensures Run(cfg.(width := Bits64), acts) == WordState(Run(cfg, acts))
  {
    if acts != [] {
      var front := acts[..|acts| - 1];
      WrappingIsInvisible(cfg, front);
      InvHolds(cfg, front);
      WordStep(cfg, Run(cfg, front), acts[|acts| - 1]);
    }
  }

  /** So the 64-bit queue delivers first in, first out, writes only where no element is, reads
      only the element whose turn it is, and never holds up both threads. */
  lemma WordsDeliver<V>(cfg: Config, acts: seq<Action<V>>)
    requires cfg.width.Bits64? && IsPow2(|cfg.ring|) && |cfg.ring| <= WORD / 2
    ensures var s := Run(cfg, acts);
            s.returned <= s.pushed && Somes(s.returned) <= Arguments(cfg, acts) &&
            (s.producer.Storing? ==> s.elements[Slot(cfg.ring, s.producer.ticket)].None?) &&
            (s.consumer.Taking? ==>
               |s.returned| < |s.pushed| &&
               s.elements[Slot(cfg.ring, s.consumer.ticket)] == Some(s.pushed[|s.returned|])) &&
            !(ProducerBlocked(cfg, s) && ConsumerBlocked(cfg, s))
  {
    var wide := cfg.(width := Unbounded);
    assert wide.(width := Bits64) == cfg;
    var w := Run(wide, acts);
    WrappingIsInvisible(wide, acts);
    PushedAreTheArguments(cfg, acts);
    Fifo(wide, acts);
    HandoffIsSafe(wide, acts);
    NoDeadlock(wide, acts);
    if Owes(w.producer) {
      WordSlot(cfg.ring, w.producer.ticket);
    }
    if Expects(w.consumer) {
      WordSlot(cfg.ring, w.consumer.ticket);
    }
  }
}
