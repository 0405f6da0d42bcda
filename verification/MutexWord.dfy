/**
 * The 32-bit lock word of a bionic mutex: the bit-field macros, and the record of fields they read and
 * change.  Every operation of the mutex on the word is shown to be an operation on one field.
 */
module MutexWord {
  /// The macros

  function FieldMask(shift: bv6, bits: bv6): bv32
    requires shift <= 32 && bits <= 32
  {
    ((1 << bits) - 1) << shift
  }

  function FieldToBits(val: bv32, shift: bv6, bits: bv6): bv32
    requires shift <= 32 && bits <= 32
  {
    (val & ((1 << bits) - 1)) << shift
  }

  function FieldFromBits(val: bv32, shift: bv6, bits: bv6): bv32
    requires shift <= 32 && bits <= 32
  {
    (val >> shift) & ((1 << bits) - 1)
  }

  const MUTEX_STATE_MASK: bv32 := FieldMask(0, 2)
  const MUTEX_STATE_BITS_UNLOCKED: bv32 := FieldToBits(0, 0, 2)
  const MUTEX_STATE_BITS_LOCKED_UNCONTENDED: bv32 := FieldToBits(1, 0, 2)
  const MUTEX_STATE_BITS_LOCKED_CONTENDED: bv32 := FieldToBits(2, 0, 2)
  const MUTEX_COUNTER_MASK: bv32 := FieldMask(2, 11)
  const MUTEX_COUNTER_BITS_ONE: bv32 := FieldToBits(1, 2, 11)
  const MUTEX_SHARED_MASK: bv32 := FieldMask(13, 1)
  const MUTEX_TYPE_MASK: bv32 := FieldMask(14, 2)

  predicate StateBitsIsLockedUncontended(v: bv32) {
    v & MUTEX_STATE_MASK == MUTEX_STATE_BITS_LOCKED_UNCONTENDED
  }

  predicate StateBitsIsLockedContended(v: bv32) {
    v & MUTEX_STATE_MASK == MUTEX_STATE_BITS_LOCKED_CONTENDED
  }

  function StateBitsFlipContention(v: bv32): bv32 {
    v ^ (MUTEX_STATE_BITS_LOCKED_CONTENDED ^ MUTEX_STATE_BITS_LOCKED_UNCONTENDED)
  }

  predicate CounterBitsWillOverflow(v: bv32) {
    v & MUTEX_COUNTER_MASK == MUTEX_COUNTER_MASK
  }

  predicate CounterBitsIsZero(v: bv32) {
    v & MUTEX_COUNTER_MASK == 0
  }

  function OwnerFromBits(v: bv32): bv32 {
    FieldFromBits(v, 16, 16)
  }

  function OwnerToBits(v: bv32): bv32 {
    FieldToBits(v, 16, 16)
  }

  function TypeToBits(t: bv32): bv32 {
    FieldToBits(t, 14, 2)
  }

  /// The fields

  datatype Word = Word(owner: bv16, kind: bv2, shared: bv1, counter: bv11, state: bv2)

  const UNLOCKED: bv2 := 0
  const LOCKED_UNCONTENDED: bv2 := 1
  const LOCKED_CONTENDED: bv2 := 2
  const COUNTER_MAX: bv11 := 0x7FF

  function Pack(w: Word): bv32 {
    ((w.owner as bv32) << 16) | ((w.kind as bv32) << 14) | ((w.shared as bv32) << 13)
    | ((w.counter as bv32) << 2) | (w.state as bv32)
  }

  function Unpack(v: bv32): Word {
    Word((v >> 16) as bv16, ((v >> 14) & 3) as bv2, ((v >> 13) & 1) as bv1, ((v >> 2) & 0x7FF) as bv11, (v & 3) as bv2)
  }

  // The value of an unlocked mutex of the given type: no owner, no count.
  function Unlocked(kind: bv2, shared: bv1): Word {
    Word(0, kind, shared, 0, UNLOCKED)
  }

  /** The record and the word carry the same information, so comparing words compares all fields. */
  lemma PackIsBijective(v: Word, w: Word, bits: bv32)
    ensures Pack(v) == Pack(w) <==> v == w
    ensures Pack(Unpack(bits)) == bits
  {
  }

  /** The macros that read a word read exactly one field of it. */
  lemma MacrosReadFields(w: Word)
    ensures StateBitsIsLockedUncontended(Pack(w)) <==> w.state == LOCKED_UNCONTENDED
    ensures StateBitsIsLockedContended(Pack(w)) <==> w.state == LOCKED_CONTENDED
    ensures CounterBitsWillOverflow(Pack(w)) <==> w.counter == COUNTER_MAX
    ensures CounterBitsIsZero(Pack(w)) <==> w.counter == 0
    ensures OwnerFromBits(Pack(w)) == w.owner as bv32
    ensures (Pack(w) & MUTEX_TYPE_MASK) | (Pack(w) & MUTEX_SHARED_MASK) == Pack(Unlocked(w.kind, w.shared))
    ensures Pack(w) & MUTEX_TYPE_MASK == TypeToBits(w.kind as bv32)
  {
  }

  /** Adding or subtracting one unit of the counter, guarded as the mutex guards it, stays inside the counter. */
  lemma CounterNeverSpills(w: Word)
    ensures !CounterBitsWillOverflow(Pack(w)) ==> Pack(w) + MUTEX_COUNTER_BITS_ONE == Pack(w.(counter := w.counter + 1))
    ensures !CounterBitsIsZero(Pack(w)) ==> Pack(w) - MUTEX_COUNTER_BITS_ONE == Pack(w.(counter := w.counter - 1))
  {
  }

  /** The state updates touch the state bits only; the atomic decrement is sound because a locked state is not 0. */
  lemma StateNeverSpills(w: Word, tid: bv16)
    ensures w.state == LOCKED_UNCONTENDED ==> StateBitsFlipContention(Pack(w)) == Pack(w.(state := LOCKED_CONTENDED))
    ensures w.state != UNLOCKED ==> Pack(w) - 1 == Pack(w.(state := w.state - 1))
    ensures OwnerToBits(tid as bv32) | Pack(Unlocked(w.kind, w.shared)) | MUTEX_STATE_BITS_LOCKED_UNCONTENDED
            == Pack(Word(tid, w.kind, w.shared, 0, LOCKED_UNCONTENDED))
    ensures OwnerToBits(tid as bv32) | Pack(Unlocked(w.kind, w.shared)) | MUTEX_STATE_BITS_LOCKED_CONTENDED
            == Pack(Word(tid, w.kind, w.shared, 0, LOCKED_CONTENDED))
  {
  }

  /** The 11-bit counter counts: one step up or down, away from its ends, is one number up or down. */
  lemma CounterCounts(c: bv11)
    ensures 0 <= c as nat <= 2047
    ensures c == COUNTER_MAX <==> c as nat == 2047
    ensures c == 0 <==> c as nat == 0
    ensures c != COUNTER_MAX ==> (c + 1) as nat == c as nat + 1
    ensures c != 0 ==> (c - 1) as nat == c as nat - 1
  {
  }
}
