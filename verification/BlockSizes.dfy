/** The block size the memory pool takes for a request. */
module BlockSizes {
  import opened Bytes
  import opened Masks

  const SMALLEST: nat := 10

  /** `1 << i` in a signed 32-bit `int`: from 31 on the language defines no value. */
  datatype Shift = Value(n: nat) | Undefined

  function ShiftOne(i: int): (r: Shift) {
    if 0 <= i < 31 then Value(Pow2(i)) else Undefined
  }

  /** After `i` shifts nothing is left exactly when `size` is below the i-th power of two. */
  lemma {:induction false} ShiftedBelow(size: nat, i: nat, m: nat)
    ensures Shr(size, i) < m <==> size < Pow2(i) * m
  {
    if i > 0 {
      ShiftedBelow(size, i - 1, 2 * m);
      assert Pow2(i - 1) * (2 * m) == Pow2(i) * m;
    }
  }

  lemma {:induction false} Pow2Grows(i: nat, k: nat)
    requires i <= k
    ensures Pow2(i) <= Pow2(k)
  {
    if i < k {
      Pow2Grows(i, k - 1);
    }
  }

  /** A block a request of `size` bytes may get: a power of two, at least 1 KiB, with at least a byte to spare. */
  ghost predicate Holds(k: nat, size: nat) {
    k >= SMALLEST && size < Pow2(k)
  }

  /** The smallest such block, and no more than twice the request once that reaches 1 KiB. The result is defined
      exactly for requests below 2^30. */
  method FitBlockSize(requested: nat) returns (r: Shift)
    requires requested < 0x1_0000_0000
    ensures r.Value? <==> requested < 0x4000_0000
    ensures r.Value? ==> exists k: nat :: Holds(k, requested) && r.n == Pow2(k)
    ensures r.Value? ==> forall k: nat :: Holds(k, requested) ==> r.n <= Pow2(k)
    ensures r.Value? && requested >= 1024 ==> r.n <= 2 * requested
  {
    var i: int, size := SMALLEST, Shr(requested, SMALLEST);
    while size > 0
      invariant i >= SMALLEST && size == Shr(requested, i)
      invariant i == SMALLEST || Shr(requested, i - 1) > 0
      decreases size
    {
      i, size := i + 1, size / 2;
    }
    LeastFit(requested, i);
    r := ShiftOne(if i < SMALLEST then SMALLEST else i);
  }

  lemma LeastFit(size: nat, i: nat)
    requires i >= SMALLEST && Shr(size, i) == 0
    requires i == SMALLEST || Shr(size, i - 1) > 0
    ensures Holds(i, size)
    ensures forall k: nat :: Holds(k, size) ==> Pow2(i) <= Pow2(k)
    ensures i < 31 <==> size < 0x4000_0000
    ensures size >= 1024 ==> Pow2(i) <= 2 * size
  {
    ShiftedBelow(size, i, 1);
    ShiftedBelow(size, i - 1, 1);
    forall k: nat | Holds(k, size)
      ensures Pow2(i) <= Pow2(k)
    {
      if k < i {
        Pow2Grows(k, i - 1);
      } else {
        Pow2Grows(i, k);
      }
    }
    Thirty();
    if i < 31 {
      Pow2Grows(i, 30);
    } else {
      Pow2Grows(30, i - 1);
    }
  }

  lemma Thirty()
    ensures Pow2(10) == 1024 && Pow2(30) == 0x4000_0000
  {
    assert Pow2(10) == 1024;
    assert Pow2(20) == 1024 * 1024;
  }
}
