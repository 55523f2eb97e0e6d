/** Bytes, fixed-width integers and byte order, shared by the codecs. */
module Bytes {

  type byte = x: int | 0 <= x < 256

  function Zeros(n: nat): (s: seq<byte>)
    ensures |s| == n && forall i :: 0 <= i < n ==> s[i] == 0
  {
    seq(n, _ => 0)
  }

  function Pow256(k: nat): (p: int)
    ensures p > 0
  {
    if k == 0 then 1 else 256 * Pow256(k - 1)
  }

  /** The `k` bytes of `n`, most significant first (network byte order). */
  function BigEndian(n: nat, k: nat): (s: seq<byte>)
    ensures |s| == k
  {
    if k == 0 then [] else BigEndian(n / 256, k - 1) + [n % 256]
  }

  function FromBigEndian(s: seq<byte>): (n: nat)
  {
    if s == [] then 0 else 256 * FromBigEndian(s[..|s| - 1]) + s[|s| - 1]
  }

  /** The `k` bytes of `n` as a little-endian host keeps them in memory. */
  function LittleEndian(n: nat, k: nat): (s: seq<byte>)
    ensures |s| == k
  {
    if k == 0 then [] else [n % 256] + LittleEndian(n / 256, k - 1)
  }

  function FromLittleEndian(s: seq<byte>): (n: nat)
  {
    if s == [] then 0 else s[0] + 256 * FromLittleEndian(s[1..])
  }

  lemma {:induction false} BigEndianRoundTrip(n: nat, k: nat)
    requires n < Pow256(k)
    ensures FromBigEndian(BigEndian(n, k)) == n
  {
    if k > 0 {
      BigEndianRoundTrip(n / 256, k - 1);
      assert BigEndian(n, k)[..k - 1] == BigEndian(n / 256, k - 1);
    }
  }

  lemma {:induction false} FromBigEndianRoundTrip(s: seq<byte>)
    ensures FromBigEndian(s) < Pow256(|s|)
    ensures BigEndian(FromBigEndian(s), |s|) == s
  {
    if s != [] {
      FromBigEndianRoundTrip(s[..|s| - 1]);
      assert FromBigEndian(s) / 256 == FromBigEndian(s[..|s| - 1]);
      assert s[..|s| - 1] + [s[|s| - 1]] == s;
    }
  }

  lemma {:induction false} LittleEndianRoundTrip(n: nat, k: nat)
    requires n < Pow256(k)
    ensures FromLittleEndian(LittleEndian(n, k)) == n
  {
    if k > 0 {
      LittleEndianRoundTrip(n / 256, k - 1);
      assert LittleEndian(n, k)[1..] == LittleEndian(n / 256, k - 1);
    }
  }

  lemma {:induction false} FromLittleEndianRoundTrip(s: seq<byte>)
    ensures FromLittleEndian(s) < Pow256(|s|)
    ensures LittleEndian(FromLittleEndian(s), |s|) == s
  {
    if s != [] {
      FromLittleEndianRoundTrip(s[1..]);
      assert FromLittleEndian(s) / 256 == FromLittleEndian(s[1..]);
      assert [s[0]] + s[1..] == s;
    }
  }

  function Reversed(s: seq<byte>): (r: seq<byte>)
    ensures |r| == |s| && forall i :: 0 <= i < |s| ==> r[i] == s[|s| - 1 - i]
  {
    seq(|s|, i requires 0 <= i < |s| => s[|s| - 1 - i])
  }

  /** The two byte orders are each other's reversal. */
  lemma {:induction false} EndiansReverse(n: nat, k: nat)
    ensures BigEndian(n, k) == Reversed(LittleEndian(n, k))
  {
    if k > 0 {
      EndiansReverse(n / 256, k - 1);
    }
  }

  lemma {:induction false} FromEndiansReverse(s: seq<byte>)
    ensures FromLittleEndian(s) == FromBigEndian(Reversed(s))
  {
    if s != [] {
      FromEndiansReverse(s[1..]);
      var r := Reversed(s);
      assert r[..|r| - 1] == Reversed(s[1..]);
    }
  }

  lemma Digit(n: nat, q: nat, r: nat)
    requires n == 256 * q + r && r < 256
    ensures n / 256 == q && n % 256 == r
  {
  }

  lemma {:induction false} LittleEndianSplit(hi: nat, lo: nat, j: nat, k: nat)
    requires lo < Pow256(j)
    ensures LittleEndian(hi * Pow256(j) + lo, j + k) == LittleEndian(lo, j) + LittleEndian(hi, k)
  {
    if j == 0 {
      assert hi * Pow256(j) + lo == hi;
    } else {
      var p, n := Pow256(j - 1), hi * Pow256(j) + lo;
      assert hi * (256 * p) == 256 * (hi * p);
      Digit(n, hi * p + lo / 256, lo % 256);
      LittleEndianSplit(hi, lo / 256, j - 1, k);
      var t, u := LittleEndian(lo / 256, j - 1), LittleEndian(hi, k);
      assert LittleEndian(n, j + k) == [n % 256] + (t + u);
      assert [n % 256] + (t + u) == [n % 256] + t + u;
    }
  }

  lemma ReversedConcat(s: seq<byte>, t: seq<byte>)
    ensures Reversed(s + t) == Reversed(t) + Reversed(s)
  {
  }

  lemma BigEndianSplit(hi: nat, lo: nat, j: nat, k: nat)
    requires lo < Pow256(j)
    ensures BigEndian(hi * Pow256(j) + lo, j + k) == BigEndian(hi, k) + BigEndian(lo, j)
  {
    LittleEndianSplit(hi, lo, j, k);
    EndiansReverse(hi * Pow256(j) + lo, j + k);
    EndiansReverse(hi, k);
    EndiansReverse(lo, j);
    ReversedConcat(LittleEndian(lo, j), LittleEndian(hi, k));
  }

  lemma {:induction false} FromBigEndianSplit(s: seq<byte>, t: seq<byte>)
    ensures FromBigEndian(s + t) == FromBigEndian(s) * Pow256(|t|) + FromBigEndian(t)
  {
    if t == [] {
      assert s + t == s;
    } else {
      var t', x := t[..|t| - 1], t[|t| - 1];
      FromBigEndianSplit(s, t');
      FromBigEndianAppend(s + t', x);
      FromBigEndianAppend(t', x);
      assert s + t == s + t' + [x] && t == t' + [x];
      Shift(FromBigEndian(s), Pow256(|t'|));
    }
  }

  lemma Shift(a: int, p: int)
    ensures 256 * (a * p) == a * (256 * p)
  {
  }

  lemma FromBigEndianAppend(s: seq<byte>, x: byte)
    ensures FromBigEndian(s + [x]) == 256 * FromBigEndian(s) + x
  {
    assert (s + [x])[..|s|] == s;
  }

  lemma Widths()
    ensures Pow256(1) == 0x100 && Pow256(2) == 0x1_0000
    ensures Pow256(4) == 0x1_0000_0000 && Pow256(8) == 0x1_0000_0000_0000_0000
  {
    assert Pow256(3) == 0x100_0000 && Pow256(6) == 0x1_0000_0000_0000;
  }

  /** Two's-complement reading of the low 32 bits: a conversion to `int`. */
  function Int32(n: int): (r: int)
    ensures -0x8000_0000 <= r < 0x8000_0000
  {
    var u := n % 0x1_0000_0000;
    if u < 0x8000_0000 then u else u - 0x1_0000_0000
  }

  lemma Int32Congruent(n: int)
    ensures (Int32(n) - n) % 0x1_0000_0000 == 0
  {
    var q := n / 0x1_0000_0000;
    assert Int32(n) - n == -q * 0x1_0000_0000 || Int32(n) - n == (-q - 1) * 0x1_0000_0000;
  }

  /** Bitwise exclusive or. */
  function Xor(a: nat, b: nat): (r: nat)
  {
    if a == 0 && b == 0 then 0 else 2 * Xor(a / 2, b / 2) + (a + b) % 2
  }

  lemma XorStep(a: nat, b: nat)
    ensures Xor(a, b) / 2 == Xor(a / 2, b / 2) && Xor(a, b) % 2 == (a + b) % 2
  {
  }

  lemma Parity(a: nat, b: nat, x: nat)
    requires x % 2 == (a + b) % 2
    ensures (x + b) % 2 == a % 2
  {
    assert x == 2 * (x / 2) + x % 2 && a + b == 2 * ((a + b) / 2) + (a + b) % 2;
    assert x + b == a + 2 * (x / 2 + b - (a + b) / 2);
  }

  lemma {:induction false} XorTwice(a: nat, b: nat)
    ensures Xor(Xor(a, b), b) == a
  {
    if a != 0 || b != 0 {
      var x := Xor(a, b);
      XorStep(a, b);
      Parity(a, b, x);
      XorTwice(a / 2, b / 2);
      XorStep(x, b);
      var y := Xor(x, b);
      assert y == 2 * (y / 2) + y % 2 && a == 2 * (a / 2) + a % 2;
    }
  }

  function Bit(n: nat, i: nat): (b: nat)
    ensures b < 2
  {
    if i == 0 then n % 2 else Bit(n / 2, i - 1)
  }

  /** Bit by bit, `Xor` is 1 exactly where the operands differ. */
  lemma {:induction false} XorBit(a: nat, b: nat, i: nat)
    ensures Bit(Xor(a, b), i) == if Bit(a, i) != Bit(b, i) then 1 else 0
  {
    XorStep(a, b);
    if i > 0 {
      XorBit(a / 2, b / 2, i - 1);
    } else {
      LastBits(a, b);
    }
  }

  lemma LastBits(a: nat, b: nat)
    ensures (a + b) % 2 == if a % 2 != b % 2 then 1 else 0
  {
    assert a == 2 * (a / 2) + a % 2 && b == 2 * (b / 2) + b % 2;
  }

  lemma {:induction false} XorBound(a: nat, b: nat, k: nat)
    requires a < Pow2(k) && b < Pow2(k)
    ensures Xor(a, b) < Pow2(k)
  {
    if a != 0 || b != 0 {
      XorBound(a / 2, b / 2, k - 1);
    }
  }

  function Pow2(k: nat): (p: int)
    ensures p > 0
  {
    if k == 0 then 1 else 2 * Pow2(k - 1)
  }

  function XorByte(a: byte, b: byte): (r: byte) {
    assert Pow2(8) == 256 by { assert Pow2(4) == 16; }
    XorBound(a, b, 8);
    Xor(a, b)
  }

  lemma XorByteTwice(a: byte, b: byte)
    ensures XorByte(XorByte(a, b), b) == a
  {
    XorTwice(a, b);
  }
}
