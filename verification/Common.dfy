/** The counters every queue shares (src/common.rs:46-94).  Both are 64-bit words; the
    subtraction wraps. */
module Common {
  import opened Arch

  class AtomicQueueCommon {
    var head: Word
    var tail: Word

    constructor ()
      ensures head == 0 && tail == 0
    {
      head, tail := 0, 0;
    }

    function WasSize(): Word
      reads this
    {
      (head - tail) % WORD
    }

    predicate WasEmpty()
      reads this
    {
      head == tail
    }

    predicate WasFull(capacity: nat)
      reads this
    {
      WasSize() == capacity
    }
  }

  /** With `n` elements between them, the wrapped difference of the counters is `n`,
      however often they have wrapped. */
  lemma WrappedDistance(base: nat, n: nat)
    requires n < WORD
    ensures ((base + n) % WORD - base % WORD) % WORD == n
    ensures (base + n) % WORD == base % WORD <==> n == 0
  {
    assert ((base + n) % WORD - base % WORD) % WORD == n % WORD;
  }

  lemma WrappedNext(p: nat)
    ensures (p % WORD + 1) % WORD == (p + 1) % WORD
  {
  }
}
