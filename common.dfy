// Shared vocabulary of the capture pipeline model: bytes, optional values,
// results, and the integer facts about division that the pixel-indexing
// proofs lean on.

module Common {

  /** A byte of a BGRA buffer (Rust `u8`). */
  type byte = x: int | 0 <= x < 256

  /** Largest value of a Rust `u32`, plus one. */
  const U32_LIMIT: nat := 0x1_0000_0000

  datatype Option<T> = None | Some(value: T)

  datatype Result<T, E> = Ok(value: T) | Err(error: E)

  /** `vec![0u8; n]` */
  function Zeros(n: nat): (z: seq<byte>)
    ensures |z| == n
  {
    seq(n, _ => 0)
  }

  predicate AllZero(s: seq<byte>)
  {
    forall i :: 0 <= i < |s| ==> s[i] == 0
  }

  /** `a.max(b)` */
  function Max(a: int, b: int): int
  {
    if a >= b then a else b
  }

  /** `a.min(b)` */
  function Min(a: int, b: int): int
  {
    if a <= b then a else b
  }

  /** `x.clamp(lo, hi)` for `lo <= hi` (Rust panics otherwise). */
  function Clamp(x: int, lo: int, hi: int): int
    requires lo <= hi
  {
    if x < lo then lo else if x > hi then hi else x
  }

  /** Ceiling division of naturals, `(a + b - 1) / b`. */
  function CeilDiv(a: nat, b: nat): nat
    requires b > 0
  {
    (a + b - 1) / b
  }
}

module Arith {

  lemma MulLeMono(a: int, b: int, c: int)
    requires 0 <= c && a <= b
    ensures a * c <= b * c
  {
  }

  lemma MulLtMono(a: int, b: int, c: int)
    requires 0 < c && a < b
    ensures a * c < b * c
  {
  }

  /** Quotient and remainder are determined by any decomposition with a
      remainder in range. */
  lemma DivModUnique(a: int, b: int, q: int, r: int)
    requires b > 0 && 0 <= r < b && a == q * b + r
    ensures a / b == q && a % b == r
  {
    var d := a / b;
    var m := a % b;
    assert a == d * b + m;
    if q > d {
      MulLeMono(1, q - d, b);
    } else if q < d {
      MulLeMono(1, d - q, b);
    }
  }

  /** `(q * b + r) / b == q` and `(q * b + r) % b == r` for `r < b`. */
  lemma DivModOfSum(q: nat, b: nat, r: nat)
    requires b > 0 && r < b
    ensures (q * b + r) / b == q && (q * b + r) % b == r
  {
    DivModUnique(q * b + r, b, q, r);
  }

  lemma DivLtBound(a: nat, d: nat, k: nat)
    requires d > 0 && a < d * k
    ensures a / d < k
  {
    var q := a / d;
    assert q * d <= a;
    if q >= k {
      MulLeMono(k, q, d);
    }
  }

  lemma DivLeBound(a: nat, d: nat, k: nat)
    requires d > 0 && a <= d * k
    ensures a / d <= k
  {
    DivLtBound(a, d, k + 1);
  }

  lemma DivGeBound(a: nat, d: nat, k: nat)
    requires d > 0 && d * k <= a
    ensures k <= a / d
  {
    var q := a / d;
    var r := a % d;
    assert a == q * d + r;
    if q < k {
      MulLeMono(q + 1, k, d);
    }
  }

  /** Row-major pixel offsets of distinct pixels in a row of width `w`
      never collide and stay inside `w * h`. */
  lemma RowMajorBound(x: nat, y: nat, w: nat, h: nat)
    requires x < w && y < h
    ensures y * w + x < w * h
  {
    MulLeMono(y + 1, h, w);
  }

  lemma RowMajorInjective(x1: nat, y1: nat, x2: nat, y2: nat, w: nat)
    requires x1 < w && x2 < w && y1 * w + x1 == y2 * w + x2
    ensures x1 == x2 && y1 == y2
  {
    DivModOfSum(y1, w, x1);
    DivModOfSum(y2, w, x2);
  }
}

module ModArith {
  import opened Arith

  /** Reducing the left operand first does not change a sum's remainder. */
  lemma ModAddMod(a: nat, b: nat, m: nat)
    requires m > 0
    ensures ((a % m) + b) % m == (a + b) % m
  {
    var q := a / m;
    var r := a % m;
    assert a == q * m + r;
    var q2 := (r + b) / m;
    var r2 := (r + b) % m;
    assert r + b == q2 * m + r2;
    DivModUnique(a + b, m, q + q2, r2);
  }

  /** Two positions fewer than `m` apart never share a remainder. */
  lemma ModDistinct(base: nat, i: nat, j: nat, m: nat)
    requires i < j < m + i
    ensures (base + i) % m != (base + j) % m
  {
    var a := base + i;
    var b := base + j;
    var qa := a / m;
    var qb := b / m;
    if a % m == b % m {
      assert b - a == (qb - qa) * m;
      if qb - qa >= 1 {
        MulLeMono(1, qb - qa, m);
      } else {
        MulLeMono(qb - qa, 0, m);
      }
    }
  }

  /** Multiplying through by a positive factor commutes with `%` for
      arguments below twice the modulus. */
  lemma ScaledMod(k: nat, m: nat, f: nat)
    requires m > 0 && f > 0 && k < 2 * m
    ensures (k * f) % (m * f) == (k % m) * f
  {
    if k < m {
      ScaledModLow(k, m, f);
    } else {
      ScaledModHigh(k, m, f);
    }
  }

  lemma ScaledModLow(k: nat, m: nat, f: nat)
    requires m > 0 && f > 0 && k < m
    ensures (k * f) % (m * f) == (k % m) * f
  {
    MulLtMono(k, m, f);
    DivModUnique(k * f, m * f, 0, k * f);
    DivModUnique(k, m, 0, k);
  }

  lemma ScaledModHigh(k: nat, m: nat, f: nat)
    requires m > 0 && f > 0 && m <= k < 2 * m
    ensures (k * f) % (m * f) == (k % m) * f
  {
    var d := k - m;
    MulLtMono(d, m, f);
    SumTimes(m, d, f);
    DivModUnique(k * f, m * f, 1, d * f);
    DivModUnique(k, m, 1, d);
  }

  /** `(a + b) * f == a * f + b * f` */
  lemma SumTimes(a: nat, b: nat, f: nat)
    ensures (a + b) * f == a * f + b * f
  {
  }

  lemma MulCancel(a: nat, b: nat, f: nat)
    requires f > 0 && a * f == b * f
    ensures a == b
  {
    if a < b {
      MulLtMono(a, b, f);
    } else if b < a {
      MulLtMono(b, a, f);
    }
  }

  /** Byte ranges `[s*f, s*f+f)` of distinct slots are disjoint. */
  lemma SlotsDisjoint(s1: nat, s2: nat, f: nat)
    requires s1 != s2
    ensures s1 * f + f <= s2 * f || s2 * f + f <= s1 * f
  {
    if s1 < s2 {
      MulLeMono(s1 + 1, s2, f);
    } else {
      MulLeMono(s2 + 1, s1, f);
    }
  }
}
