/** The clock behind the statistics: 64-bit division by a 32-bit base out of 32-bit divisions. */
module Ticks {
  import opened Layout

  const CYCLES_PER_TICK := 109000

  /** The `divl` instruction divides the 64-bit value upper:low and traps when the quotient does
      not fit into 32 bits. */
  method Divl(upper: Word, low: Word, base: Word) returns (q: Word, r: Word)
    requires base > 0 && (upper * WORD + low) / base < WORD
    ensures q == (upper * WORD + low) / base && r == (upper * WORD + low) % base
  {
    DivMod(upper * WORD + low, base);
    q := (upper * WORD + low) / base;
    r := (upper * WORD + low) % base;
  }

  /** `do_div`: the dividend is replaced by the quotient, the remainder is the result. */
  method DoDiv(n: int, base: Word) returns (n': int, r: Word)
    requires 0 <= n < WORD * WORD && base > 0
    ensures n' == n / base && r == n % base
    ensures 0 <= n' < WORD * WORD
  {
    var low: Word := n % WORD;
    var high: Word := n / WORD;
    var upper := high;
    ghost var top := high;
    if high != 0 {
      DivMod(high, base);
      upper := high % base;
      high := high / base;
    }
    assert top == high * base + upper && upper < base by {
      DivMod(top, base);
    }
    LongDivision(high, upper, low, base);
    var q, rem := Divl(upper, low, base);
    n', r := high * WORD + q, rem;
  }

  lemma MulAtMost(x: int, y: int, b: int)
    requires x <= y && b >= 0
    ensures x * b <= y * b
  {
  }

  lemma DivMod(x: int, b: int)
    requires x >= 0 && b > 0
    ensures x == x / b * b + x % b && 0 <= x % b < b && 0 <= x / b <= x
  {
    var q := x / b;
    assert x == q * b + x % b;
    MulAtMost(1, b, q);
  }

  lemma UniqueDivision(x: int, b: int, q: int, r: int)
    requires b > 0 && 0 <= r < b && x == q * b + r
    ensures x / b == q && x % b == r
  {
    var d := x / b - q;
    assert x == x / b * b + x % b;
    assert d * b == r - x % b;
    if d != 0 {
      MulAtMost(if d > 0 then 1 else d, if d > 0 then d else -1, b);
    }
  }

  /** Schoolbook division with digits of 32 bits: the remainder of the upper digit is smaller than
      the base, so the second quotient is a digit. */
  lemma LongDivision(high: nat, upper: nat, low: Word, base: Word)
    requires upper < base
    ensures (upper * WORD + low) / base < WORD
    ensures var n := (high * base + upper) * WORD + low;
      n / base == high * WORD + (upper * WORD + low) / base && n % base == (upper * WORD + low) % base
  {
    var m := upper * WORD + low;
    DivMod(m, base);
    var q := m / base;
    if q >= WORD {
      MulAtMost(WORD, q, base);
    }
    var n := (high * base + upper) * WORD + low;
    assert n == (high * WORD + q) * base + m % base;
    UniqueDivision(n, base, high * WORD + q, m % base);
  }

  /** `get_ticks` for a reading of the time-stamp counter. */
  method GetTicks(tsc: int) returns (t: Word)
    requires 0 <= tsc < WORD * WORD
    ensures t == tsc / 109000 % 0x1_0000_0000 == TickAt(tsc)
  {
    var n, _ := DoDiv(tsc, CYCLES_PER_TICK);
    t := n % WORD;
  }

  function TickAt(tsc: int): Word { tsc / CYCLES_PER_TICK % WORD }

  /** Before truncation the clock never runs backwards, and the 32-bit difference of two readings
      is the true number of ticks between them as long as that fits into 32 bits. */
  lemma ElapsedTicks(a: int, b: int)
    requires 0 <= a <= b < WORD * WORD
    ensures a / CYCLES_PER_TICK <= b / CYCLES_PER_TICK
    ensures var d := b / CYCLES_PER_TICK - a / CYCLES_PER_TICK;
      (TickAt(b) - TickAt(a)) % WORD == d % WORD && (d < WORD ==> (TickAt(b) - TickAt(a)) % WORD == d)
  {
    var x, y := a / CYCLES_PER_TICK, b / CYCLES_PER_TICK;
    DivMod(x, WORD);
    DivMod(y, WORD);
    var d := y - x;
    assert TickAt(b) - TickAt(a) == d - WORD * (y / WORD - x / WORD);
    SameResidue(TickAt(b) - TickAt(a), d, y / WORD - x / WORD);
  }
}
