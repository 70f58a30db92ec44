/** Fixed-width two's-complement integers, the value types of the numeric
    cache. A value of kind `k` is an unbounded integer between `k.MinValue()`
    and `k.MaxValue()`; `Wrap` reduces the exact result of an addition or a
    subtraction to the value the fixed-width machine operation produces.
    Go's `int`, `uint` and `uintptr` are 64 bits wide on the platforms the
    model assumes, so `Int64` and `Uint64` stand for them too. */
module FixedWidth {

  datatype IntKind = Int8 | Int16 | Int32 | Int64 | Uint8 | Uint16 | Uint32 | Uint64 {

    /** 2 to the power of the bit width. */
    function Modulus(): (m: int)
      ensures m >= 0x100 && m % 2 == 0
    {
      match this
      case Int8 | Uint8 => 0x100
      case Int16 | Uint16 => 0x1_0000
      case Int32 | Uint32 => 0x1_0000_0000
      case Int64 | Uint64 => 0x1_0000_0000_0000_0000
    }

    predicate Signed() {
      Int8? || Int16? || Int32? || Int64?
    }

    function MinValue(): int {
      if Signed() then -(Modulus() / 2) else 0
    }

    function MaxValue(): int {
      if Signed() then Modulus() / 2 - 1 else Modulus() - 1
    }
  }

  /** `x` is representable in kind `k`. */
  predicate InRange(k: IntKind, x: int) {
    k.MinValue() <= x <= k.MaxValue()
  }

  /** The representable value congruent to `x` modulo 2^width: the result of
      a wrapping machine operation whose exact result is `x`. */
  function Wrap(k: IntKind, x: int): (r: int)
    ensures InRange(k, r)
    ensures (x - r) % k.Modulus() == 0
    ensures InRange(k, x) ==> r == x
  {
    var m := k.Modulus();
    var u := x % m;
    assert x == m * (x / m) + u;
    if k.Signed() && u >= m / 2 then
      assert x - (u - m) == m * (x / m + 1);
      MultipleMod(m, x / m + 1);
      if InRange(k, x) then
        assert x / m == -1 by { DivOfRange(m, x, -1); }
        u - m
      else
        u - m
    else
      MultipleMod(m, x / m);
      if InRange(k, x) then
        assert x / m == 0 by { DivOfRange(m, x, 0); }
        u
      else
        u
  }

  /** A multiple of `m` leaves no remainder. */
  lemma MultipleMod(m: int, q: int)
    requires m > 0
    ensures (m * q) % m == 0
  {
    DivOfRange(m, m * q, q);
    assert m * q == m * ((m * q) / m) + (m * q) % m;
  }

  /** Integer division recovers the quotient `q` of any `x` in `[m*q, m*q + m)`. */
  lemma DivOfRange(m: int, x: int, q: int)
    requires m > 0
    requires m * q <= x < m * q + m
    ensures x / m == q
  {
    var d := x / m;
    assert x == m * d + x % m;
    if d > q {
      assert m * d == m * q + m * (d - q);
      MulAtLeast(m, d - q);
    } else if d < q {
      assert m * q == m * d + m * (q - d);
      MulAtLeast(m, q - d);
    }
  }

  /** A positive multiple of `m` is at least `m`. */
  lemma {:induction false} MulAtLeast(m: int, t: int)
    requires m > 0 && t >= 1
    ensures m * t >= m
    decreases t
  {
    if t > 1 {
      MulAtLeast(m, t - 1);
      assert m * t == m * (t - 1) + m;
    }
  }

  /** Adding a multiple of `m` does not change the remainder. */
  lemma ModShift(m: int, y: int, c: int)
    requires m > 0
    ensures (y + m * c) % m == y % m
  {
    var q := y / m;
    assert y == m * q + y % m;
    assert y + m * c == m * (q + c) + y % m;
    DivOfRange(m, y + m * c, q + c);
    assert y + m * c == m * ((y + m * c) / m) + (y + m * c) % m;
  }

  /** Two integers congruent modulo 2^width wrap to the same value. */
  lemma {:induction false} WrapCongruent(k: IntKind, x: int, y: int)
    requires (x - y) % k.Modulus() == 0
    ensures Wrap(k, x) == Wrap(k, y)
  {
    var m := k.Modulus();
    var c := (x - y) / m;
    assert x - y == m * c + (x - y) % m;
    assert x == y + m * c;
    ModShift(m, y, c);
    assert x % m == y % m;
  }

  /** Adding `n` and then subtracting `n` with wraparound restores any
      representable value. */
  lemma {:induction false} WrapAddThenSubtract(k: IntKind, v: int, n: int)
    requires InRange(k, v)
    ensures Wrap(k, Wrap(k, v + n) - n) == v
  {
    var m := k.Modulus();
    var w := Wrap(k, v + n);
    var q := (v + n - w) / m;
    assert v + n - w == m * q;
    assert (w - n) - v == m * (-q);
    MultipleMod(m, -q);
    WrapCongruent(k, w - n, v);
  }

  /** Subtracting `n` and then adding `n` with wraparound restores any
      representable value. */
  lemma {:induction false} WrapSubtractThenAdd(k: IntKind, v: int, n: int)
    requires InRange(k, v)
    ensures Wrap(k, Wrap(k, v - n) + n) == v
  {
    WrapAddThenSubtract(k, v, -n);
  }
}
