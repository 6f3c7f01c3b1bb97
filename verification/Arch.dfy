/** Index arithmetic of src/arch.rs on a 64-bit target.

    A machine word is a natural number below `WORD`.  Bitwise operators and
    shifts are defined bit by bit on natural numbers, so the facts below hold for
    every width of the fields involved; a left shift drops the bits above the word.
 */
module Arch {
  import opened Arith

  const WORD: nat := 0x1_0000_0000_0000_0000

  type Word = n: nat | n < WORD

  function Pow2(k: nat): (r: nat)
    ensures 1 <= r
  {
    if k == 0 then 1 else 2 * Pow2(k - 1)
  }

  ghost predicate IsPow2(n: nat) {
    exists k: nat :: Pow2(k) == n
  }

  // ---------- Bitwise operators ----------

  datatype BitOp = AndOp | OrOp | XorOp

  function OneBit(op: BitOp, x: nat, y: nat): (r: nat)
    requires x < 2 && y < 2
    ensures r < 2
  {
    match op
    case AndOp => if x == 1 && y == 1 then 1 else 0
    case OrOp => if x == 1 || y == 1 then 1 else 0
    case XorOp => if x != y then 1 else 0
  }

  function Bitwise(op: BitOp, a: nat, b: nat): nat {
    if a == 0 && b == 0 then 0
    else 2 * Bitwise(op, a / 2, b / 2) + OneBit(op, a % 2, b % 2)
  }

  function And(a: nat, b: nat): nat { Bitwise(AndOp, a, b) }
  function Or(a: nat, b: nat): nat { Bitwise(OrOp, a, b) }
  function Xor(a: nat, b: nat): nat { Bitwise(XorOp, a, b) }

  function ShiftRight(n: nat, count: nat): nat {
    if count == 0 then n else ShiftRight(n / 2, count - 1)
  }

  function ShiftLeft(n: Word, count: nat): Word
    decreases count
  {
    if count == 0 then n else ShiftLeft(2 * n % WORD, count - 1)
  }

  // ---------- The source's functions ----------

  /** src/arch.rs:109-121 */
  function CacheLineIndexBits(elementsPerCacheLine: nat): nat {
    match elementsPerCacheLine
    case 256 => 8
    case 128 => 7
    case 64 => 6
    case 32 => 5
    case 16 => 4
    case 8 => 3
    case 4 => 2
    case 2 => 1
    case _ => 0
  }

  /** src/arch.rs:124-141 */
  function IndexShuffleBits(minimizeContention: bool, arraySize: nat, elementsPerCacheLine: nat): nat {
    if !minimizeContention then 0
    else
      var bits := CacheLineIndexBits(elementsPerCacheLine);
      var minSize := ShiftLeft(1, bits * 2);
      if arraySize < minSize then 0 else bits
  }

  /** src/arch.rs:148-156.  The mask subtraction wraps, as it does in the source. */
  function RemapIndex(index: nat, bits: nat): nat {
    if bits == 0 then index
    else
      var mixMask := (ShiftLeft(1, bits) - 1) % WORD;
      var mix := And(Xor(index, ShiftRight(index, bits)), mixMask);
      Xor(Xor(index, mix), ShiftLeft(mix % WORD, bits))
  }

  // ---------- Powers of two ----------

  lemma DoubleFactor(a: nat, b: nat)
    ensures (2 * a) * b == 2 * (a * b)
  {
  }

  lemma {:induction false} Pow2Add(a: nat, b: nat)
    ensures Pow2(a + b) == Pow2(a) * Pow2(b)
  {
    if a > 0 {
      Pow2Add(a - 1, b);
      DoubleFactor(Pow2(a - 1), Pow2(b));
    }
  }

  lemma {:induction false} Pow2Monotone(a: nat, b: nat)
    ensures a <= b ==> Pow2(a) <= Pow2(b)
    ensures a < b ==> 2 * Pow2(a) <= Pow2(b)
  {
    if a < b {
      Pow2Monotone(a, b - 1);
    }
  }

  lemma Pow2Small()
    ensures Pow2(16) == 0x1_0000
  {
    assert Pow2(4) == 16;
    Pow2Add(4, 4);
    Pow2Add(8, 8);
  }

  lemma Pow2Word()
    ensures Pow2(64) == WORD && Pow2(63) == WORD / 2
  {
    Pow2Small();
    Pow2Add(16, 16);
    Pow2Add(32, 32);
    assert Pow2(64) == 2 * Pow2(63);
  }

  // ---------- High and low parts ----------

  /** The number whose low `m` bits are `l` and whose higher bits are `h`. */
  function Join(h: nat, l: nat, m: nat): nat {
    if m == 0 then h else 2 * Join(h, l / 2, m - 1) + l % 2
  }

  /** The low `m` bits. */
  function Low(n: nat, m: nat): nat {
    if m == 0 then 0 else 2 * Low(n / 2, m - 1) + n % 2
  }

  lemma {:induction false} JoinIsSum(h: nat, l: nat, m: nat)
    requires l < Pow2(m)
    ensures Join(h, l, m) == h * Pow2(m) + l
  {
    if m > 0 {
      JoinIsSum(h, l / 2, m - 1);
      DoubleProduct(h, Pow2(m - 1));
    }
  }

  lemma DoubleProduct(a: nat, b: nat)
    ensures a * (2 * b) == 2 * (a * b)
  {
  }

  lemma HalfOf(q: nat, r: nat)
    requires r < 2
    ensures (2 * q + r) / 2 == q && (2 * q + r) % 2 == r
  {
  }

  lemma {:induction false} Split(n: nat, m: nat)
    ensures Low(n, m) < Pow2(m)
    ensures n == Join(ShiftRight(n, m), Low(n, m), m)
  {
    if m > 0 {
      var l := Low(n / 2, m - 1);
      Split(n / 2, m - 1);
      HalfOf(l, n % 2);
      assert Low(n, m) == 2 * l + n % 2;
    }
  }

  lemma {:induction false} JoinParts(h: nat, l: nat, m: nat)
    requires l < Pow2(m)
    ensures ShiftRight(Join(h, l, m), m) == h && Low(Join(h, l, m), m) == l
    ensures Join(0, l, m) == l
  {
    if m > 0 {
      JoinParts(h, l / 2, m - 1);
    }
  }

  /** `%` by a power of two keeps the low bits and `/` shifts them out. */
  lemma DivModPow2(n: nat, m: nat)
    ensures n % Pow2(m) == Low(n, m) && n / Pow2(m) == ShiftRight(n, m)
  {
    Split(n, m);
    JoinIsSum(ShiftRight(n, m), Low(n, m), m);
    DivModUnique(ShiftRight(n, m), Low(n, m), Pow2(m));
  }

  lemma {:induction false} LowOfLow(n: nat, m: nat, k: nat)
    requires k <= m
    ensures Low(Low(n, m), k) == Low(n, k)
  {
    if k > 0 {
      LowOfLow(n / 2, m - 1, k - 1);
    }
  }

  lemma {:induction false} ShiftTwice(n: nat, a: nat, b: nat)
    ensures ShiftRight(ShiftRight(n, a), b) == ShiftRight(n, a + b)
  {
    if a > 0 {
      ShiftTwice(n / 2, a - 1, b);
    }
  }

  /** A number is below `Pow2(m + k)` exactly when its part above bit `m` is below `Pow2(k)`. */
  lemma {:induction false} ShiftBound(n: nat, m: nat, k: nat)
    ensures n < Pow2(m + k) <==> ShiftRight(n, m) < Pow2(k)
  {
    if m > 0 {
      ShiftBound(n / 2, m - 1, k);
    }
  }

  lemma DoubleFits(n: nat, k: nat)
    requires n < Pow2(k) && k <= 63
    ensures 2 * n < WORD && 2 * n < Pow2(k + 1)
  {
    Pow2Word();
    Pow2Monotone(k + 1, 64);
  }

  lemma ShiftLeftStep(n: Word, m: nat)
    requires 1 <= m && 2 * n < WORD
    ensures ShiftLeft(n, m) == ShiftLeft(2 * n, m - 1)
  {
    ModSmall(2 * n, WORD);
  }

  /** A left shift that loses no bit appends zeros. */
  lemma {:induction false} ShiftLeftJoins(n: Word, m: nat, k: nat)
    requires n < Pow2(k) && k + m <= 64
    ensures ShiftLeft(n, m) == Join(n, 0, m)
    decreases m
  {
    if m > 0 {
      DoubleFits(n, k);
      ShiftLeftStep(n, m);
      ShiftLeftJoins(2 * n, m - 1, k + 1);
      JoinDouble(n, m - 1);
    }
  }

  lemma {:induction false} JoinDouble(n: nat, m: nat)
    ensures Join(2 * n, 0, m) == 2 * Join(n, 0, m)
  {
    if m > 0 {
      JoinDouble(n, m - 1);
    }
  }

  lemma BitwiseUnfold(op: BitOp, a: nat, b: nat)
    ensures Bitwise(op, a, b) == 2 * Bitwise(op, a / 2, b / 2) + OneBit(op, a % 2, b % 2)
  {
  }

  lemma BitwiseDouble(op: BitOp, a: nat, x: nat, b: nat, y: nat)
    requires x < 2 && y < 2
    ensures Bitwise(op, 2 * a + x, 2 * b + y) == 2 * Bitwise(op, a, b) + OneBit(op, x, y)
  {
    HalfOf(a, x);
    HalfOf(b, y);
    BitwiseUnfold(op, 2 * a + x, 2 * b + y);
  }

  /** Bitwise operators act on the parts above and below bit `m` separately. */
  lemma {:induction false} BitwiseJoin(op: BitOp, m: nat, h: nat, l: nat, h': nat, l': nat)
    requires l < Pow2(m) && l' < Pow2(m)
    ensures Bitwise(op, Join(h, l, m), Join(h', l', m)) == Join(Bitwise(op, h, h'), Bitwise(op, l, l'), m)
    ensures Bitwise(op, l, l') < Pow2(m)
  {
    if m > 0 {
      BitwiseJoin(op, m - 1, h, l / 2, h', l' / 2);
      BitwiseJoinDigit(op, m, h, l, h', l');
    }
  }

  lemma BitwiseJoinDigit(op: BitOp, m: nat, h: nat, l: nat, h': nat, l': nat)
    requires 1 <= m && Bitwise(op, l / 2, l' / 2) < Pow2(m - 1)
    requires Bitwise(op, Join(h, l / 2, m - 1), Join(h', l' / 2, m - 1)) ==
             Join(Bitwise(op, h, h'), Bitwise(op, l / 2, l' / 2), m - 1)
    ensures Bitwise(op, Join(h, l, m), Join(h', l', m)) == Join(Bitwise(op, h, h'), Bitwise(op, l, l'), m)
    ensures Bitwise(op, l, l') < Pow2(m)
  {
    var digit := OneBit(op, l % 2, l' % 2);
    assert Join(h, l, m) == 2 * Join(h, l / 2, m - 1) + l % 2;
    assert Join(h', l', m) == 2 * Join(h', l' / 2, m - 1) + l' % 2;
    BitwiseDouble(op, Join(h, l / 2, m - 1), l % 2, Join(h', l' / 2, m - 1), l' % 2);
    BitwiseUnfold(op, l, l');
    JoinDigit(Bitwise(op, h, h'), Bitwise(op, l / 2, l' / 2), digit, m);
  }

  /** One more low digit. */
  lemma JoinDigit(h: nat, l: nat, digit: nat, m: nat)
    requires 1 <= m && l < Pow2(m - 1) && digit < 2
    ensures Join(h, 2 * l + digit, m) == 2 * Join(h, l, m - 1) + digit
    ensures 2 * l + digit < Pow2(m)
  {
    HalfOf(l, digit);
  }

  lemma {:induction false} BitwiseShift(op: BitOp, a: nat, b: nat, m: nat)
    ensures ShiftRight(Bitwise(op, a, b), m) == Bitwise(op, ShiftRight(a, m), ShiftRight(b, m))
  {
    if m > 0 {
      BitwiseUnfold(op, a, b);
      BitwiseShift(op, a / 2, b / 2, m - 1);
    }
  }

  // ---------- Masking ----------

  lemma {:induction false} AndOnes(l: nat, m: nat)
    requires l < Pow2(m)
    ensures And(l, Pow2(m) - 1) == l
  {
    if m > 0 {
      AndOnes(l / 2, m - 1);
      BitwiseUnfold(AndOp, l, Pow2(m) - 1);
    }
  }

  lemma {:induction false} AndZero(h: nat)
    ensures And(h, 0) == 0
  {
    if h > 0 {
      AndZero(h / 2);
    }
  }

  lemma MaskIsLow(n: nat, m: nat)
    ensures And(n, Pow2(m) - 1) == Low(n, m)
  {
    Split(n, m);
    var h, l := ShiftRight(n, m), Low(n, m);
    JoinParts(0, Pow2(m) - 1, m);
    BitwiseJoin(AndOp, m, h, l, 0, Pow2(m) - 1);
    AndZero(h);
    AndOnes(l, m);
    JoinParts(0, l, m);
  }

  /** `index & (capacity - 1)` is `index % capacity` when the capacity is a power of two. */
  lemma MaskIsModulo(index: nat, capacity: nat)
    requires IsPow2(capacity)
    ensures 1 <= capacity && And(index, capacity - 1) == index % capacity
  {
    var m: nat :| Pow2(m) == capacity;
    MaskIsLow(index, m);
    DivModPow2(index, m);
  }

  // ---------- remap_index ----------

  lemma {:induction false} XorCancels(a: nat, b: nat)
    ensures Xor(a, 0) == a
    ensures Xor(a, Xor(a, b)) == b && Xor(b, Xor(a, b)) == a
  {
    if a > 0 || b > 0 {
      XorCancels(a / 2, b / 2);
      BitwiseUnfold(XorOp, a, 0);
      BitwiseUnfold(XorOp, a, b);
      BitwiseUnfold(XorOp, a, Xor(a, b));
      BitwiseUnfold(XorOp, b, Xor(a, b));
    }
  }

  /** The mixing value is the XOR of the two lowest fields. */
  lemma MixIsXor(hi: nat, mid: nat, lo: nat, bits: nat)
    requires mid < Pow2(bits) && lo < Pow2(bits)
    ensures var index := Join(Join(hi, mid, bits), lo, bits);
            And(Xor(index, ShiftRight(index, bits)), Pow2(bits) - 1) == Xor(lo, mid)
    ensures Xor(lo, mid) < Pow2(bits)
  {
    var upper := Join(hi, mid, bits);
    var index := Join(upper, lo, bits);
    JoinParts(upper, lo, bits);
    BitwiseJoin(XorOp, bits, upper, lo, hi, mid);
    MaskIsLow(Xor(index, upper), bits);
    JoinParts(Xor(upper, hi), Xor(lo, mid), bits);
  }

  lemma WordMask(bits: nat)
    requires bits <= 63
    ensures ShiftLeft(1, bits) == Pow2(bits) && (ShiftLeft(1, bits) - 1) % WORD == Pow2(bits) - 1
  {
    assert ShiftLeft(1, bits) == Pow2(bits) by {
      assert 1 < Pow2(1);
      ShiftLeftJoins(1, bits, 1);
      JoinIsSum(1, 0, bits);
    }
    assert Pow2(bits) - 1 < WORD by {
      Pow2Word();
      Pow2Monotone(bits, 63);
    }
    ModSmall(Pow2(bits) - 1, WORD);
  }

  /** XOR with a value below `Pow2(bits)` changes the low field only. */
  lemma XorLow(h: nat, l: nat, mix: nat, bits: nat)
    requires l < Pow2(bits) && mix < Pow2(bits)
    ensures Xor(Join(h, l, bits), mix) == Join(h, Xor(l, mix), bits)
  {
    BitwiseJoin(XorOp, bits, h, l, 0, mix);
    JoinParts(0, mix, bits);
    XorCancels(h, 0);
  }

  lemma XorJoins(h: nat, l: nat, mix: nat, bits: nat)
    requires l < Pow2(bits)
    ensures Xor(Join(h, l, bits), Join(mix, 0, bits)) == Join(Xor(h, mix), l, bits)
  {
    BitwiseJoin(XorOp, bits, h, l, mix, 0);
    XorCancels(l, 0);
  }

  /** XOR with a value shifted left by `bits` changes the high part only. */
  lemma XorHigh(h: nat, l: nat, mix: nat, bits: nat)
    requires l < Pow2(bits) && mix < Pow2(bits) && 2 * bits <= 64
    ensures Xor(Join(h, l, bits), ShiftLeft(mix % WORD, bits)) == Join(Xor(h, mix), l, bits)
  {
    assert mix < WORD by {
      Pow2Word();
      Pow2Monotone(bits, 63);
    }
    assert ShiftLeft(mix % WORD, bits) == Join(mix, 0, bits) by {
      ModSmall(mix, WORD);
      ShiftLeftJoins(mix, bits, bits);
    }
    XorJoins(h, l, mix, bits);
  }

  /** The XOR form exchanges the two lowest `bits`-wide fields and keeps the rest,
      for every field width that fits a word twice. */
  lemma RemapSwapsFields(hi: nat, mid: nat, lo: nat, bits: nat)
    requires 2 * bits <= 64
    requires mid < Pow2(bits) && lo < Pow2(bits)
    ensures RemapIndex(Join(Join(hi, mid, bits), lo, bits), bits) == Join(Join(hi, lo, bits), mid, bits)
  {
    if bits > 0 {
      var upper := Join(hi, mid, bits);
      var mix := Xor(lo, mid);
      WordMask(bits);
      MixIsXor(hi, mid, lo, bits);
      XorCancels(lo, mid);
      XorLow(upper, lo, mix, bits);
      XorHigh(upper, mid, mix, bits);
      XorLow(hi, mid, mix, bits);
    }
  }

  /** A slot count fits a shuffle width: nothing to shuffle, or a power of two
      that holds both fields. */
  ghost predicate Shufflable(capacity: nat, bits: nat) {
    bits == 0 || (2 * bits <= 64 && IsPow2(capacity) && Pow2(2 * bits) <= capacity)
  }

  /** src/arch.rs:109-141: the array is shuffled exactly when asked for, with a cache line of
      2, 4, ... or 256 elements and at least as many slots as that number squared; the
      field width is then the logarithm of the line. */
  lemma ShuffledExactlyWhen(minimizeContention: bool, arraySize: nat, elementsPerCacheLine: nat)
    ensures var bits := IndexShuffleBits(minimizeContention, arraySize, elementsPerCacheLine);
            (bits > 0 <==>
              minimizeContention && elementsPerCacheLine in {2, 4, 8, 16, 32, 64, 128, 256} &&
              elementsPerCacheLine * elementsPerCacheLine <= arraySize) &&
            (bits > 0 ==> Pow2(bits) == elementsPerCacheLine)
  {
    var bits := CacheLineIndexBits(elementsPerCacheLine);
    WordMask(bits * 2);
    Pow2Add(bits, bits);
    LineIsPow2(elementsPerCacheLine);
  }

  lemma LineIsPow2(n: nat)
    ensures CacheLineIndexBits(n) > 0 <==> n in {2, 4, 8, 16, 32, 64, 128, 256}
    ensures CacheLineIndexBits(n) > 0 ==> Pow2(CacheLineIndexBits(n)) == n
  {
    assert Pow2(4) == 16;
    assert Pow2(8) == 256;
  }

  /** src/arch.rs:124-141: every width it returns fits the array it was computed for. */
  lemma ShuffleBitsFit(minimizeContention: bool, arraySize: nat, elementsPerCacheLine: nat)
    requires minimizeContention ==> IsPow2(arraySize)
    ensures Shufflable(arraySize, IndexShuffleBits(minimizeContention, arraySize, elementsPerCacheLine))
  {
    var bits := CacheLineIndexBits(elementsPerCacheLine);
    assert bits <= 8;
    WordMask(bits * 2);
  }

  /** Remapping stays inside the array and is its own inverse, hence a permutation of the slots. */
  lemma RemapIsInvolution(index: nat, capacity: nat, bits: nat)
    requires Shufflable(capacity, bits)
    requires index < capacity
    ensures RemapIndex(index, bits) < capacity
    ensures RemapIndex(RemapIndex(index, bits), bits) == index
  {
    if bits > 0 {
      var k: nat :| Pow2(k) == capacity;
      assert k >= 2 * bits by {
        if k < 2 * bits { Pow2Monotone(k, 2 * bits); }
      }
      var upper, lo := ShiftRight(index, bits), Low(index, bits);
      var hi, mid := ShiftRight(upper, bits), Low(upper, bits);
      Split(index, bits);
      Split(upper, bits);
      RemapSwapsFields(hi, mid, lo, bits);
      RemapSwapsFields(hi, lo, mid, bits);
      FieldsBound(hi, mid, lo, bits, k - 2 * bits);
      FieldsBound(hi, lo, mid, bits, k - 2 * bits);
    }
  }

  /** Whether a three-field number is below `Pow2(bits + bits + k)` depends on its top field only. */
  lemma FieldsBound(hi: nat, mid: nat, lo: nat, bits: nat, k: nat)
    requires mid < Pow2(bits) && lo < Pow2(bits)
    ensures Join(Join(hi, mid, bits), lo, bits) < Pow2(2 * bits + k) <==> hi < Pow2(k)
  {
    var upper := Join(hi, mid, bits);
    JoinParts(hi, mid, bits);
    JoinParts(upper, lo, bits);
    ShiftBound(Join(upper, lo, bits), bits, bits + k);
    ShiftBound(upper, bits, k);
  }

  // ---------- round_up_to_power_of_2 ----------

  ghost predicate LeastPow2AtLeast(n: nat, r: nat) {
    IsPow2(r) && n <= r && forall k: nat :: n <= Pow2(k) ==> r <= Pow2(k)
  }

  /** The smear invariant: `n` lies below bit `top` and its `run` highest bits
      (all of them once `run` reaches `top`) are ones. */
  ghost predicate Smeared(n: nat, top: nat, run: nat) {
    n < Pow2(top) &&
    if run >= top then n == Pow2(top) - 1 else ShiftRight(n, top - run) == Pow2(run) - 1
  }

  lemma {:induction false} OrOnes(l: nat, m: nat)
    requires l < Pow2(m)
    ensures Or(l, Pow2(m) - 1) == Pow2(m) - 1
    ensures Or(l, 0) == l
  {
    if m > 0 {
      OrOnes(l / 2, m - 1);
      BitwiseUnfold(OrOp, l, Pow2(m) - 1);
      BitwiseUnfold(OrOp, l, 0);
    }
  }

  lemma {:induction false} ShiftOnes(m: nat, k: nat)
    requires k <= m
    ensures ShiftRight(Pow2(m) - 1, k) == Pow2(m - k) - 1
  {
    if k > 0 {
      ShiftOnes(m - 1, k - 1);
    }
  }

  lemma {:induction false} JoinOnes(m: nat, k: nat)
    ensures Join(Pow2(m) - 1, Pow2(k) - 1, k) == Pow2(m + k) - 1
  {
    if k > 0 {
      JoinOnes(m, k - 1);
      JoinDigit(Pow2(m) - 1, Pow2(k - 1) - 1, 1, k);
      assert Pow2(m + k) == 2 * Pow2(m + (k - 1));
    }
  }

  /** One shift-or doubles the run of ones below the top bit. */
  lemma SmearDoubles(n: nat, top: nat, run: nat)
    requires Smeared(n, top, run) && 1 <= run
    ensures Smeared(Or(n, ShiftRight(n, run)), top, 2 * run)
  {
    SmearBelow(n, top, run);
    if run >= top {
      SmearDone(n, top, run);
    } else {
      SmearExtends(n, top, run, if run < top - run then run else top - run);
    }
  }

  lemma SmearDone(n: nat, top: nat, run: nat)
    requires n == Pow2(top) - 1 && run >= top
    ensures Or(n, ShiftRight(n, run)) == n
  {
    ShiftBound(n, top, 0);
    ShiftTwice(n, top, run - top);
    ShiftOfZero(run - top);
    OrOnes(n, top);
  }

  lemma SmearExtends(n: nat, top: nat, run: nat, d: nat)
    requires 1 <= run < top && d <= run && d <= top - run
    requires ShiftRight(n, top - run) == Pow2(run) - 1
    ensures ShiftRight(Or(n, ShiftRight(n, run)), top - run - d) == Pow2(run + d) - 1
  {
    var rest := top - run - d;
    var x := ShiftRight(n, rest);
    assert ShiftRight(x, d) == Pow2(run) - 1 by {
      ShiftTwice(n, rest, d);
    }
    assert ShiftRight(ShiftRight(n, run), rest) == Pow2(d) - 1 by {
      ShiftTwice(n, run, rest);
      ShiftTwice(n, top - run, run - d);
      ShiftOnes(run, run - d);
    }
    BitwiseShift(OrOp, n, ShiftRight(n, run), rest);
    RunGrows(x, run, d);
  }

  /** Below the first `run` ones of `x` come `d` unknown bits; `d` ones OR-ed there extend the run. */
  lemma RunGrows(x: nat, run: nat, d: nat)
    requires ShiftRight(x, d) == Pow2(run) - 1
    ensures Or(x, Pow2(d) - 1) == Pow2(run + d) - 1
  {
    var ones, l := Pow2(d) - 1, Low(x, d);
    Split(x, d);
    assert Or(Pow2(run) - 1, 0) == Pow2(run) - 1 by { OrOnes(Pow2(run) - 1, run); }
    assert Or(l, ones) == ones by { OrOnes(l, d); }
    assert Join(0, ones, d) == ones by { JoinParts(0, ones, d); }
    BitwiseJoin(OrOp, d, Pow2(run) - 1, l, 0, ones);
    JoinOnes(run, d);
  }

  lemma {:induction false} ShiftOfZero(k: nat)
    ensures ShiftRight(0, k) == 0
  {
    if k > 0 {
      ShiftOfZero(k - 1);
    }
  }

  lemma SmearBelow(n: nat, top: nat, run: nat)
    requires n < Pow2(top)
    ensures Or(n, ShiftRight(n, run)) < Pow2(top)
  {
    var s := ShiftRight(n, run);
    ShiftBound(n, top, 0);
    ShiftTwice(n, top, run);
    ShiftTwice(n, run, top);
    ShiftOfZero(run);
    BitwiseShift(OrOp, n, s, top);
    ShiftBound(Or(n, s), top, 0);
  }

  /** Every positive number has a top bit. */
  lemma {:induction false} TopBit(n: nat) returns (top: nat)
    requires 1 <= n
    ensures 1 <= top && Pow2(top - 1) <= n < Pow2(top)
    ensures ShiftRight(n, top - 1) == 1
  {
    if n == 1 {
      top := 1;
    } else {
      top := TopBit(n / 2);
      top := top + 1;
    }
  }

  /** src/arch.rs:88-104, with the wrap of the final increment made explicit:
      the least power of two at least `size` up to 2^63, and 0 above. */
  method RoundUpToPowerOf2(size: Word) returns (r: Word)
    ensures size <= WORD / 2 ==> LeastPow2AtLeast(size, r)
    ensures size > WORD / 2 ==> r == 0
  {
    if size == 0 {
      assert Pow2(0) == 1;
      return 1;
    }
    var n: nat := size - 1;
    ghost var top := SmearStart(size);
    n := SmearStep(n, 1, top);
    n := SmearStep(n, 2, top);
    n := SmearStep(n, 4, top);
    n := SmearStep(n, 8, top);
    n := SmearStep(n, 16, top);
    n := SmearStep(n, 32, top);
    r := (n + 1) % WORD;
    RoundedUp(size, top, n);
  }

  /** One line `n |= n >> shift` of the rounding. */
  method SmearStep(n: nat, shift: nat, ghost top: nat) returns (r: nat)
    requires 1 <= shift && Smeared(n, top, shift)
    ensures Smeared(r, top, 2 * shift)
  {
    SmearDoubles(n, top, shift);
    r := Or(n, ShiftRight(n, shift));
  }

  ghost predicate TopOf(size: Word, top: nat) {
    1 <= size && top <= 64 &&
    if size == 1 then top == 0 else 1 <= top && Pow2(top - 1) <= size - 1 < Pow2(top)
  }

  lemma SmearStart(size: Word) returns (top: nat)
    requires 1 <= size
    ensures TopOf(size, top) && Smeared(size - 1, top, 1)
  {
    if size == 1 {
      top := 0;
    } else {
      top := TopBit(size - 1);
      Pow2Word();
      if top > 64 {
        Pow2Monotone(64, top - 1);
      }
    }
  }

  /** After the last shift-or every bit below the top one is set. */
  lemma RoundedUp(size: Word, top: nat, n: nat)
    requires TopOf(size, top) && Smeared(n, top, 64)
    ensures size <= WORD / 2 ==> LeastPow2AtLeast(size, (n + 1) % WORD)
    ensures size > WORD / 2 ==> (n + 1) % WORD == 0
  {
    Pow2Word();
    if size <= WORD / 2 {
      TopFits(size, top);
      ModSmall(n + 1, WORD);
      forall k: nat | size <= Pow2(k) ensures Pow2(top) <= Pow2(k) {
        if k < top {
          Pow2Monotone(k, top - 1);
        } else {
          Pow2Monotone(top, k);
        }
      }
    } else {
      assert top == 64 by {
        if top < 64 { Pow2Monotone(top, 63); }
      }
    }
  }

  lemma TopFits(size: Word, top: nat)
    requires TopOf(size, top) && size <= WORD / 2
    ensures top <= 63 && Pow2(top) < WORD
  {
    Pow2Word();
    assert top <= 63;
    Pow2Monotone(top, 63);
  }
}
