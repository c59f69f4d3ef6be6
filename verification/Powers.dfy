/** Powers of two, and remainders modulo a power of two of counters that wrap. */
module Powers {

  function Pow2(b: nat): (p: nat)
    ensures p >= 1
  {
    if b == 0 then 1 else 2 * Pow2(b - 1)
  }

  /** Counters are unsigned 64-bit words. */
  const WRAP := 0x1_0000_0000_0000_0000

  /** Half of that. */
  const SIZE_LIMIT := 0x8000_0000_0000_0000

  lemma {:induction false} Pow2Add(a: nat, b: nat)
    ensures Pow2(a + b) == Pow2(a) * Pow2(b)
    decreases a
  {
    if a > 0 {
      Pow2Add(a - 1, b);
      Doubled(Pow2(a - 1), Pow2(b), Pow2(a - 1 + b));
    }
  }

  lemma Doubled(x: int, y: int, xy: int)
    requires xy == x * y
    ensures 2 * xy == (2 * x) * y
  {
  }

  lemma {:induction false} Pow2Monotone(a: nat, b: nat)
    requires a < b
    ensures 2 * Pow2(a) <= Pow2(b)
    decreases b
  {
    if a < b - 1 {
      Pow2Monotone(a, b - 1);
    }
  }

  lemma Pow2Values()
    ensures Pow2(2) == 4 && Pow2(12) == 4096 && Pow2(63) == SIZE_LIMIT && Pow2(64) == WRAP
  {
    assert Pow2(16) == 0x1_0000;
    Pow2Add(16, 16);
    Pow2Add(32, 32);
    Pow2Next(63);
  }

  lemma Pow2Next(b: nat)
    ensures Pow2(b + 1) == 2 * Pow2(b)
  {
  }

  lemma QuotientUnique(a: int, c: int, q: int, r: int)
    requires c > 0 && 0 <= r < c && a == c * q + r
    ensures a / c == q && a % c == r
  {
    var d := q - a / c;
    assert c * d == a % c - r by {
      assert a == c * (a / c) + a % c;
      assert c * d == c * q - c * (a / c);
    }
  }

  lemma RemainderShift(x: int, c: int, k: int)
    requires c > 0
    ensures (x + c * k) % c == x % c
  {
    assert x + c * k == c * (x / c + k) + x % c by {
      assert c * (x / c + k) == c * (x / c) + c * k;
    }
    QuotientUnique(x + c * k, c, x / c + k, x % c);
  }

  /** The `b` low bits of a number: what masking leaves. */
  function Low(i: nat, b: nat): (r: nat)
    ensures r < Pow2(b)
  {
    if b == 0 then 0 else 2 * Low(i / 2, b - 1) + i % 2
  }

  lemma {:induction false} LowOfZero(b: nat)
    ensures Low(0, b) == 0
    decreases b
  {
    if b > 0 {
      LowOfZero(b - 1);
    }
  }

  /** Masking is the remainder modulo a power of two. */
  lemma {:induction false} LowIsRemainder(i: nat, b: nat)
    ensures Low(i, b) == i % Pow2(b)
    decreases b
  {
    if b > 0 {
      LowIsRemainder(i / 2, b - 1);
      HalfRemainder(i, Pow2(b - 1));
    }
  }

  lemma HalfRemainder(i: nat, p: nat)
    requires p > 0
    ensures i % (2 * p) == 2 * (i / 2 % p) + i % 2
  {
    var half := i / 2;
    var q, r := half / p, half % p;
    assert half == p * q + r;
    Doubled(p, q, p * q);
    QuotientUnique(i, 2 * p, q, 2 * r + i % 2);
  }

  /** The position behind `n` steps from `t` in a ring of `c` places. */
  function Around(c: nat, t: nat, n: nat): nat {
    if t + n < c then t + n else t + n - c
  }

  /** Unsigned 64-bit subtraction and addition. */
  function Minus(a: nat, b: nat): nat
    requires a < WRAP && b < WRAP
  {
    if a >= b then a - b else a - b + WRAP
  }

  function Plus(a: nat, k: nat): nat {
    if a + k < WRAP then a + k else a + k - WRAP
  }

  /** These are the operations modulo 2^64. */
  lemma Wrapped(a: nat, b: nat)
    requires a < WRAP && b < WRAP
    ensures Minus(a, b) == (a - b) % WRAP && Plus(a, b) == (a + b) % WRAP
  {
  }

  /** Adding `n` and reducing modulo the ring size moves `n` places around. */
  lemma RemainderAround(c: nat, tail: nat, n: nat)
    requires 0 < c && n < c
    ensures (tail + n) % c == Around(c, tail % c, n)
  {
    var q, t := tail / c, tail % c;
    assert tail == c * q + t;
    if t + n < c {
      QuotientUnique(tail + n, c, q, t + n);
    } else {
      assert c * (q + 1) == c * q + c;
      QuotientUnique(tail + n, c, q + 1, t + n - c);
    }
  }

  lemma UnwrapHead(c: int, k: int, head: nat, tail: nat, n: nat)
    requires c > 0 && WRAP == c * k && head < WRAP && tail < WRAP && n == Minus(head, tail)
    ensures head % c == (tail + n) % c
  {
    assert c * -k == -(c * k);
    RemainderShift(tail + n, c, -k);
  }

  /** Masking a wrapped counter gives the position `n` places behind the masked tail. */
  lemma MaskedHead(b: nat, head: nat, tail: nat, n: nat)
    requires b <= 63 && head < WRAP && tail < WRAP
    requires n == Minus(head, tail) && n <= Pow2(b)
    ensures Low(head, b) == if n == Pow2(b) then Low(tail, b) else Around(Pow2(b), Low(tail, b), n)
  {
    LowIsRemainder(head, b);
    LowIsRemainder(tail, b);
    var c: int, k: int := Pow2(b), Pow2(64 - b);
    assert WRAP == c * k by {
      Pow2Add(b, 64 - b);
      Pow2Values();
    }
    UnwrapHead(c, k, head, tail, n);
    if n == c {
      RemainderShift(tail, c, 1);
    } else {
      RemainderAround(c, tail, n);
    }
  }

  lemma RingBound(b: nat)
    requires b <= 63
    ensures 2 * Pow2(b) <= WRAP
  {
    Pow2Monotone(b, 64);
    Pow2Values();
  }

  /** Masking keeps the alignment to four. */
  lemma MaskedAlignment(x: nat, b: nat)
    requires b >= 2
    ensures Pow2(b) % 4 == 0
    ensures Low(x, b) % 4 == x % 4
  {
    LowIsRemainder(x, b);
    var e := Pow2(b - 2);
    Pow2Next(b - 2);
    Pow2Next(b - 1);
    FourParts(x, Pow2(b), e);
  }

  lemma FourParts(x: int, c: int, e: int)
    requires c == 4 * e && c > 0
    ensures c % 4 == 0 && (x % c) % 4 == x % 4
  {
    var q := x / c;
    assert x == c * q + x % c;
    FourTimes(e, q, c);
    RemainderShift(x % c, 4, e * q);
    RemainderShift(0, 4, e);
  }

  lemma FourTimes(e: int, q: int, c: int)
    requires c == 4 * e
    ensures c * q == 4 * (e * q)
  {
  }

  /** Counters of whole words stay counters of whole words. */
  lemma PlusAlignment(a: nat, k: nat)
    requires a % 4 == 0 && k % 4 == 0
    ensures Plus(a, k) % 4 == 0
  {
  }

  lemma MinusAlignment(a: nat, b: nat)
    requires a < WRAP && b < WRAP && a % 4 == 0 && b % 4 == 0
    ensures Minus(a, b) % 4 == 0
  {
  }
}
