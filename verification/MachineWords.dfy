// Machine words as natural numbers, and the bit operations on them.

module MachineWords {
  function Pow2(k: nat): (r: nat)
    ensures 0 < r
  {
    if k == 0 then 1 else 2 * Pow2(k - 1)
  }

  // w & (1 << i)
  predicate Bit(w: nat, i: nat) {
    if i == 0 then w % 2 == 1 else Bit(w / 2, i - 1)
  }

  // w | (1 << i)
  function SetBit(w: nat, i: nat): nat {
    if i == 0 then w / 2 * 2 + 1 else 2 * SetBit(w / 2, i - 1) + w % 2
  }

  // w & ~(1 << i)
  function ClearBit(w: nat, i: nat): nat {
    if i == 0 then w / 2 * 2 else 2 * ClearBit(w / 2, i - 1) + w % 2
  }

  // (1 << k) - 1
  function Ones(k: nat): nat {
    Pow2(k) - 1
  }

  // w >> k, which is zero exactly when w & ~((1 << k) - 1) is
  function High(w: nat, k: nat): nat {
    if k == 0 then w else High(w / 2, k - 1)
  }

  // w & ((1 << k) - 1)
  function Low(w: nat, k: nat): nat {
    if k == 0 then 0 else 2 * Low(w / 2, k - 1) + w % 2
  }

  lemma {:induction false} SetBits(w: nat, i: nat, j: nat)
    ensures Bit(SetBit(w, i), j) <==> i == j || Bit(w, j)
  {
    if i > 0 && j > 0 {
      SetBits(w / 2, i - 1, j - 1);
    }
  }

  lemma {:induction false} ClearBits(w: nat, i: nat, j: nat)
    ensures Bit(ClearBit(w, i), j) <==> i != j && Bit(w, j)
  {
    if i > 0 && j > 0 {
      ClearBits(w / 2, i - 1, j - 1);
    }
  }

  lemma {:induction false} SetBound(w: nat, i: nat, k: nat)
    requires w < Pow2(k) && i < k
    ensures SetBit(w, i) < Pow2(k)
  {
    if i > 0 {
      SetBound(w / 2, i - 1, k - 1);
    }
  }

  lemma {:induction false} ClearBound(w: nat, i: nat)
    ensures ClearBit(w, i) <= w
  {
    if i > 0 {
      ClearBound(w / 2, i - 1);
    }
  }

  lemma {:induction false} OnesBits(k: nat, j: nat)
    ensures Bit(Ones(k), j) <==> j < k
  {
    if k == 0 {
      ZeroBits(j);
    } else {
      assert Ones(k) == 2 * Ones(k - 1) + 1;
      if j > 0 {
        OnesBits(k - 1, j - 1);
      }
    }
  }

  lemma {:induction false} ZeroBits(j: nat)
    ensures !Bit(0, j)
  {
    if j > 0 {
      ZeroBits(j - 1);
    }
  }

  // A word is given by its bits.
  lemma {:induction false} SameBits(v: nat, w: nat, k: nat)
    requires v < Pow2(k) && w < Pow2(k)
    requires forall j: nat :: j < k ==> (Bit(v, j) <==> Bit(w, j))
    ensures v == w
  {
    if k > 0 {
      assert Bit(v, 0) <==> Bit(w, 0);
      forall j: nat | j < k - 1
        ensures Bit(v / 2, j) <==> Bit(w / 2, j)
      {
        assert Bit(v, j + 1) <==> Bit(w, j + 1);
      }
      SameBits(v / 2, w / 2, k - 1);
    }
  }

  ghost predicate AllBits(w: nat, k: nat) {
    forall j: nat :: j < k ==> Bit(w, j)
  }

  ghost predicate NoBits(w: nat, k: nat) {
    forall j: nat :: j < k ==> !Bit(w, j)
  }

  // All of the low k bits set, or none.
  lemma AllSet(w: nat, k: nat)
    requires w < Pow2(k)
    ensures w == Ones(k) <==> AllBits(w, k)
  {
    forall j: nat | j < k
      ensures Bit(Ones(k), j)
    {
      OnesBits(k, j);
    }
    if AllBits(w, k) {
      SameBits(w, Ones(k), k);
    }
  }

  lemma NoneSet(w: nat, k: nat)
    requires w < Pow2(k)
    ensures w == 0 <==> NoBits(w, k)
  {
    forall j: nat | j < k
      ensures !Bit(0, j)
    {
      ZeroBits(j);
    }
    if NoBits(w, k) {
      SameBits(w, 0, k);
    }
  }

  lemma {:induction false} HighBits(w: nat, k: nat, i: nat)
    ensures Bit(w, k + i) <==> Bit(High(w, k), i)
    ensures High(SetBit(w, k + i), k) == SetBit(High(w, k), i) && Low(SetBit(w, k + i), k) == Low(w, k)
    ensures High(ClearBit(w, k + i), k) == ClearBit(High(w, k), i) && Low(ClearBit(w, k + i), k) == Low(w, k)
  {
    if k > 0 {
      HighBits(w / 2, k - 1, i);
    }
  }

  lemma {:induction false} HighBound(w: nat, k: nat, m: nat)
    requires w < Pow2(k + m)
    ensures High(w, k) < Pow2(m)
  {
    if k > 0 {
      HighBound(w / 2, k - 1, m);
    }
  }

  lemma {:induction false} SmallWord(w: nat, k: nat)
    requires w < Pow2(k)
    ensures High(w, k) == 0 && Low(w, k) == w
  {
    if k > 0 {
      SmallWord(w / 2, k - 1);
    }
  }

  // The low bits of the low bits.
  lemma {:induction false} LowLow(w: nat, j: nat, k: nat)
    requires j <= k
    ensures Low(Low(w, k), j) == Low(w, j)
  {
    if j > 0 {
      LowLow(w / 2, j - 1, k - 1);
    }
  }

  // w >> (k + 1) is (w >> k) >> 1.
  lemma {:induction false} HighStep(w: nat, k: nat)
    ensures High(w, k + 1) == High(w, k) / 2
  {
    if k > 0 {
      HighStep(w / 2, k - 1);
    }
  }

  lemma {:induction false} PowAdd(a: nat, b: nat)
    ensures Pow2(a + b) == Pow2(a) * Pow2(b)
  {
    if a > 0 {
      PowAdd(a - 1, b);
      assert Pow2(a + b) == 2 * (Pow2(a - 1) * Pow2(b));
    }
  }

  lemma {:induction false} PowMonotone(a: nat, b: nat)
    requires a <= b
    ensures Pow2(a) <= Pow2(b)
  {
    if a < b {
      PowMonotone(a, b - 1);
    }
  }

  lemma {:induction false} PowInjective(a: nat, b: nat)
    requires a < b
    ensures Pow2(a) < Pow2(b)
  {
    PowMonotone(a + 1, b);
  }

  lemma MulMonotone(a: nat, b: nat, c: nat)
    requires a <= b
    ensures a * c <= b * c
  {
    assert b * c == a * c + (b - a) * c;
  }

  // The high and low part of a number put together from the two.
  lemma {:induction false} Parts(q: nat, r: nat, k: nat)
    requires r < Pow2(k)
    ensures High(q * Pow2(k) + r, k) == q && Low(q * Pow2(k) + r, k) == r
  {
    if k > 0 {
      var m := q * Pow2(k - 1);
      assert q * Pow2(k) == 2 * m;
      Parts(q, r / 2, k - 1);
      assert (2 * m + r) / 2 == m + r / 2 && (2 * m + r) % 2 == r % 2;
    }
  }

  lemma {:induction false} Whole(w: nat, k: nat)
    ensures w == High(w, k) * Pow2(k) + Low(w, k) && Low(w, k) < Pow2(k)
  {
    if k > 0 {
      var h := High(w / 2, k - 1);
      Whole(w / 2, k - 1);
      assert h * Pow2(k) == 2 * (h * Pow2(k - 1));
    }
  }

  ghost predicate MultipleOf(r: nat, a: nat) {
    exists q: nat :: r == q * a
  }

  // ngx_align, ngx_align_ptr
  function Align(x: nat, a: nat): (r: nat)
    requires 0 < a
    ensures x <= r < x + a && MultipleOf(r, a)
  {
    var q := (x + a - 1) / a;
    assert q * a <= x + a - 1 < q * a + a;
    q * a
  }

  // The shift of the smallest power of two that is not less than `size`.
  method ShiftFor(size: nat) returns (shift: nat)
    requires 2 <= size
    ensures 0 < shift && Pow2(shift - 1) < size <= Pow2(shift)
  {
    shift := 1;
    var s := (size - 1) / 2;
    while s > 0
      invariant 0 < shift && s == High(size - 1, shift) && 0 < High(size - 1, shift - 1)
    {
      HighStep(size - 1, shift);
      s := s / 2;
      shift := shift + 1;
    }
    Whole(size - 1, shift);
    Whole(size - 1, shift - 1);
    MulMonotone(1, High(size - 1, shift - 1), Pow2(shift - 1));
  }

  // The lowest bit that is not set.
  method FirstClear(w: nat, count: nat) returns (i: nat)
    requires !AllBits(w, count)
    ensures i < count && !Bit(w, i) && AllBits(w, i)
  {
    i := 0;
    while Bit(w, i)
      invariant i <= count && AllBits(w, i)
      decreases count - i
    {
      i := i + 1;
    }
  }
}
