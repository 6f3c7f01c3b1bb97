/** The bounded first-in first-out queue that the sequential classes refine: the
    contract of `AtomicQueueOps` (src/common.rs:105-137), one call at a time. */
module Fifo {

  datatype Op<T> = TryPush(x: T) | TryPop | Push(x: T) | Pop

  datatype Reply<T> = Accepted | Refused | Got(x: T) | Nothing

  predicate Pushes<T>(op: Op<T>) {
    op.TryPush? || op.Push?
  }

  /** A blocking call that does not have to wait: alone, one that waits never returns. */
  predicate Allowed<T>(capacity: nat, c: seq<T>, op: Op<T>) {
    match op
    case Push(_) => |c| < capacity
    case Pop => c != []
    case _ => true
  }

  function After<T>(capacity: nat, c: seq<T>, op: Op<T>): seq<T> {
    match op
    case TryPush(x) => if |c| < capacity then c + [x] else c
    case Push(x) => c + [x]
    case _ => if c == [] then c else c[1..]
  }

  function ReplyTo<T>(capacity: nat, c: seq<T>, op: Op<T>): Reply<T> {
    match op
    case TryPush(x) => if |c| < capacity then Accepted else Refused
    case Push(x) => Accepted
    case _ => if c == [] then Nothing else Got(c[0])
  }

  predicate AllAllowed<T>(capacity: nat, c: seq<T>, ops: seq<Op<T>>)
    decreases |ops|
  {
    ops != [] ==> Allowed(capacity, c, ops[0]) && AllAllowed(capacity, After(capacity, c, ops[0]), ops[1..])
  }

  function Final<T>(capacity: nat, c: seq<T>, ops: seq<Op<T>>): seq<T>
    decreases |ops|
  {
    if ops == [] then c else Final(capacity, After(capacity, c, ops[0]), ops[1..])
  }

  function Replies<T>(capacity: nat, c: seq<T>, ops: seq<Op<T>>): (rs: seq<Reply<T>>)
    ensures |rs| == |ops|
    decreases |ops|
  {
    if ops == [] then [] else [ReplyTo(capacity, c, ops[0])] + Replies(capacity, After(capacity, c, ops[0]), ops[1..])
  }

  /** What one call puts in and takes out. */
  function InOne<T>(op: Op<T>, r: Reply<T>): seq<T> {
    if r.Accepted? && Pushes(op) then [op.x] else []
  }

  function OutOne<T>(r: Reply<T>): seq<T> {
    if r.Got? then [r.x] else []
  }

  /** The elements that went in, in order. */
  function In<T>(ops: seq<Op<T>>, rs: seq<Reply<T>>): seq<T>
    requires |ops| == |rs|
  {
    if ops == [] then [] else InOne(ops[0], rs[0]) + In(ops[1..], rs[1..])
  }

  /** The elements that came out, in order. */
  function Out<T>(rs: seq<Reply<T>>): seq<T> {
    if rs == [] then [] else OutOne(rs[0]) + Out(rs[1..])
  }

  lemma OneCallConserves<T>(capacity: nat, c: seq<T>, op: Op<T>)
    requires Allowed(capacity, c, op) && |c| <= capacity
    ensures c + InOne(op, ReplyTo(capacity, c, op)) == OutOne(ReplyTo(capacity, c, op)) + After(capacity, c, op)
    ensures |After(capacity, c, op)| <= capacity
  {
  }

  /** First in, first out over a whole history, and nothing lost: what was in the queue
      followed by what went in is what came out followed by what remains. */
  lemma {:induction false} Conservation<T>(capacity: nat, c: seq<T>, ops: seq<Op<T>>)
    requires AllAllowed(capacity, c, ops) && |c| <= capacity
    ensures c + In(ops, Replies(capacity, c, ops)) == Out(Replies(capacity, c, ops)) + Final(capacity, c, ops)
    ensures |Final(capacity, c, ops)| <= capacity
    decreases |ops|
  {
    if ops != [] {
      var c', rest := After(capacity, c, ops[0]), ops[1..];
      var r, rs := ReplyTo(capacity, c, ops[0]), Replies(capacity, c, ops);
      assert rs[1..] == Replies(capacity, c', rest);
      OneCallConserves(capacity, c, ops[0]);
      Conservation(capacity, c', rest);
      Chain(c, InOne(ops[0], r), In(rest, rs[1..]), OutOne(r), c', Out(rs[1..]), Final(capacity, c', rest));
    }
  }

  lemma Chain<T>(c: seq<T>, i: seq<T>, ins: seq<T>, o: seq<T>, c': seq<T>, outs: seq<T>, f: seq<T>)
    requires c + i == o + c' && c' + ins == outs + f
    ensures c + (i + ins) == (o + outs) + f
  {
    assert c + (i + ins) == (c + i) + ins;
    assert (o + c') + ins == o + (c' + ins);
    assert o + (outs + f) == (o + outs) + f;
  }
}
