/** Masks and shifts on non-negative integers, and the fields they cut out. */
module Masks {
  import opened Bytes

  /** Bitwise and. */
  function And(a: nat, b: nat): (r: nat) {
    if a == 0 || b == 0 then 0 else 2 * And(a / 2, b / 2) + Both(a % 2, b % 2)
  }

  function Both(x: nat, y: nat): (r: nat)
    ensures r < 2
  {
    if x == 1 && y == 1 then 1 else 0
  }

  function Shl(n: nat, k: nat): (r: nat) {
    if k == 0 then n else 2 * Shl(n, k - 1)
  }

  function Shr(n: nat, k: nat): (r: nat) {
    if k == 0 then n else Shr(n, k - 1) / 2
  }

  lemma AndStep(a: nat, b: nat)
    ensures And(a, b) == 2 * And(a / 2, b / 2) + Both(a % 2, b % 2)
  {
  }

  lemma Halve(n: nat, h: nat, r: nat)
    requires n == 2 * h + r && r < 2
    ensures n / 2 == h && n % 2 == r
  {
  }

  /** Bit by bit, `And` is 1 exactly where both operands are. */
  lemma {:induction false} AndBit(a: nat, b: nat, i: nat)
    ensures Bit(And(a, b), i) == if Bit(a, i) == 1 && Bit(b, i) == 1 then 1 else 0
  {
    AndStep(a, b);
    Halve(And(a, b), And(a / 2, b / 2), Both(a % 2, b % 2));
    if i > 0 {
      AndBit(a / 2, b / 2, i - 1);
    }
  }

  lemma ModHalves(a: nat, p: nat)
    requires p > 0
    ensures 2 * (a / 2 % p) + a % 2 == a % (2 * p)
  {
    var h := a / 2;
    var q, r := h / p, 2 * (h % p) + a % 2;
    assert h == p * q + h % p;
    assert a == (2 * p) * q + r;
    Remainder(a, 2 * p, q, r);
  }

  lemma Remainder(a: nat, p: nat, q: int, r: nat)
    requires r < p && a == p * q + r
    ensures a % p == r
  {
    var d := a / p - q;
    assert a == p * (a / p) + a % p;
    assert p * d == r - a % p;
    Multiple(p, d);
  }

  lemma Multiple(p: int, d: int)
    requires -p < p * d < p
    ensures d == 0
  {
  }

  /** A mask of the low `k` bits takes the remainder. */
  lemma {:induction false} AndLow(a: nat, k: nat)
    ensures And(a, Pow2(k) - 1) == a % Pow2(k)
  {
    if k > 0 {
      var p := Pow2(k - 1);
      AndStep(a, Pow2(k) - 1);
      Halve(Pow2(k) - 1, p - 1, 1);
      AndLow(a / 2, k - 1);
      ModHalves(a, p);
    }
  }

  lemma {:induction false} ShrFront(n: nat, k: nat)
    requires k > 0
    ensures Shr(n / 2, k - 1) == Shr(n, k)
  {
    if k > 1 {
      ShrFront(n, k - 1);
    }
  }

  lemma {:induction false} ShrShl(n: nat, k: nat)
    ensures Shr(Shl(n, k), k) == n
  {
    if k > 0 {
      ShrFront(Shl(n, k), k);
      Halve(Shl(n, k), Shl(n, k - 1), 0);
      ShrShl(n, k - 1);
    }
  }

  lemma DivHalf(n: nat, p: nat)
    requires p > 0
    ensures n / p / 2 == n / (2 * p)
  {
    var q := n / p;
    assert n == p * q + n % p && q == 2 * (q / 2) + q % 2;
    assert n == (2 * p) * (q / 2) + (p * (q % 2) + n % p);
    Quotient(n, 2 * p, q / 2, p * (q % 2) + n % p);
  }

  lemma Quotient(a: nat, p: nat, q: int, r: nat)
    requires r < p && a == p * q + r
    ensures a / p == q
  {
    var d := a / p - q;
    assert a == p * (a / p) + a % p;
    assert p * d == r - a % p;
    Multiple(p, d);
  }

  lemma {:induction false} ShrDivides(n: nat, k: nat)
    ensures Shr(n, k) == n / Pow2(k)
  {
    if k > 0 {
      ShrDivides(n, k - 1);
      DivHalf(n, Pow2(k - 1));
    }
  }

  lemma {:induction false} ShlTimes(n: nat, k: nat)
    ensures Shl(n, k) == n * Pow2(k)
  {
    if k > 0 {
      ShlTimes(n, k - 1);
    }
  }

  /** A mask that lies `k` bits up masks what is `k` bits up. */
  lemma {:induction false} AndShifted(a: nat, m: nat, k: nat)
    ensures And(a, Shl(m, k)) == Shl(And(Shr(a, k), m), k)
  {
    if k > 0 {
      AndStep(a, Shl(m, k));
      Halve(Shl(m, k), Shl(m, k - 1), 0);
      AndShifted(a / 2, m, k - 1);
      ShrFront(a, k);
    }
  }

  /** Masking `j` bits at height `k` and shifting them down cuts that field out. */
  lemma MaskField(a: nat, j: nat, k: nat, mask: nat)
    requires mask == (Pow2(j) - 1) * Pow2(k)
    ensures Shr(And(a, mask), k) == a / Pow2(k) % Pow2(j)
  {
    ShlTimes(Pow2(j) - 1, k);
    ShrDivides(a, k);
    AndShifted(a, Pow2(j) - 1, k);
    AndLow(Shr(a, k), j);
    ShrShl(Shr(a, k) % Pow2(j), k);
  }
}
