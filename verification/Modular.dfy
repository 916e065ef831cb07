/** Positions in a circular buffer.

    `Wrap` is the remainder the program writes as `i % size` (Python's remainder for a
    positive modulus is never negative).  It is spelled by repeated addition so that proofs
    about a symbolic buffer size stay linear; `WrapIsRemainder` ties it back to `%`. */
module Modular {

  function Wrap(i: int, size: nat): (r: nat)
    requires size > 0
    ensures r < size
    decreases if i < 0 then size - i else i
  {
    if i < 0 then Wrap(i + size, size)
    else if i >= size then Wrap(i - size, size)
    else i
  }

  lemma {:induction false} WrapIsRemainder(i: int, size: nat)
    requires size > 0
    ensures Wrap(i, size) == i % size
    decreases if i < 0 then size - i else i
  {
    if i < 0 {
      WrapIsRemainder(i + size, size);
      RemainderStep(i, size);
    } else if i >= size {
      WrapIsRemainder(i - size, size);
      RemainderStep(i - size, size);
    }
  }

  lemma RemainderStep(i: int, size: nat)
    requires size > 0
    ensures (i + size) % size == i % size
  {
    var q, r := i / size, i % size;
    assert i + size == size * (q + 1) + r;
    RemainderUnique(i + size, q + 1, r, size);
  }

  /** Quotient and remainder are determined by their defining equation. */
  lemma RemainderUnique(i: int, q: int, r: int, size: nat)
    requires 0 <= r < size
    requires i == size * q + r
    ensures i % size == r && i / size == q
  {
    var q' := i / size;
    var r' := i - size * q';
    assert i % size == r' && 0 <= r' < size;
    if q > q' {
      Multiples(size, q', q);
    } else if q < q' {
      Multiples(size, q, q');
    }
  }

  lemma {:induction false} Multiples(size: nat, low: int, high: int)
    requires low < high
    ensures size * low + size <= size * high
    decreases high - low
  {
    if low + 1 < high {
      Multiples(size, low, high - 1);
    }
    assert size * high == size * (high - 1) + size;
  }

  lemma WrapShift(i: int, size: nat)
    requires size > 0
    ensures Wrap(i + size, size) == Wrap(i, size)
  {
  }

  lemma {:induction false} WrapPlus(i: int, k: int, size: nat)
    requires size > 0
    ensures Wrap(i + k, size) == Wrap(Wrap(i, size) + k, size)
    decreases if i < 0 then size - i else i
  {
    if i < 0 {
      WrapShift(i + k, size);
      WrapPlus(i + size, k, size);
    } else if i >= size {
      WrapShift(i + k - size, size);
      WrapPlus(i - size, k, size);
    }
  }

  /** Congruent positions stay congruent when both move by the same amount. */
  lemma WrapAdd(a: int, b: int, k: int, size: nat)
    requires size > 0
    requires Wrap(a, size) == Wrap(b, size)
    ensures Wrap(a + k, size) == Wrap(b + k, size)
  {
    WrapPlus(a, k, size);
    WrapPlus(b, k, size);
  }

  lemma WrapSubtract(from: int, a: int, b: int, size: nat)
    requires size > 0
    requires Wrap(a, size) == Wrap(b, size)
    ensures Wrap(from - a, size) == Wrap(from - b, size)
  {
    WrapAdd(a, b, from - a - b, size);
  }

  /** Congruent positions less than one lap apart are the same position. */
  lemma {:induction false} WrapUnique(a: int, b: int, size: nat)
    requires size > 0
    requires Wrap(a, size) == Wrap(b, size)
    requires a - b < size && b - a < size
    ensures a == b
    decreases if a < 0 then size - a else a
  {
    if a < 0 {
      WrapShift(b, size);
      WrapUnique(a + size, b + size, size);
    } else if a >= size {
      WrapShift(b - size, size);
      WrapUnique(a - size, b - size, size);
    } else if b < 0 {
      WrapShift(b, size);
    } else if b >= size {
      WrapShift(b - size, size);
    }
  }

  /** Congruence modulo a lap implies congruence modulo half a lap. */
  lemma {:induction false} WrapHalf(i: int, half: nat)
    requires half > 0
    ensures Wrap(Wrap(i, 2 * half), half) == Wrap(i, half)
    decreases if i < 0 then 2 * half - i else i
  {
    if i < 0 {
      WrapHalf(i + 2 * half, half);
      WrapShift(i, half);
      WrapShift(i + half, half);
    } else if i >= 2 * half {
      WrapHalf(i - 2 * half, half);
      WrapShift(i - 2 * half, half);
      WrapShift(i - half, half);
    }
  }

  lemma {:induction false} WrapNext(i: int, size: nat)
    requires size > 0
    ensures Wrap(i + 1, size) == if Wrap(i, size) == size - 1 then 0 else Wrap(i, size) + 1
  {
    WrapPlus(i, 1, size);
  }

  /** The quotient `i / size`, spelled by repeated subtraction for the same reason. */
  function Laps(i: nat, size: nat): nat
    requires size > 0
  {
    if i < size then 0 else Laps(i - size, size) + 1
  }

  lemma {:induction false} LapsOf(laps: nat, r: nat, size: nat)
    requires r < size
    ensures Laps(laps * size + r, size) == laps
  {
    if laps > 0 {
      LapsOf(laps - 1, r, size);
      assert laps * size + r == (laps - 1) * size + r + size;
    }
  }

  lemma LapsIsQuotient(i: nat, size: nat)
    requires size > 0
    ensures Laps(i, size) == i / size
  {
    var laps, r := i / size, i % size;
    assert i == laps * size + r;
    LapsOf(laps, r, size);
  }
}
