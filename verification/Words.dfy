/** Facts about machine words and remainders and small definitions shared by the models. */
module Words {

  /** One more than the largest `usize`/`u64`. */
  const WORD: nat := 0x1_0000_0000_0000_0000

  /** The largest power of two that fits in a word. */
  const HALF_WORD: nat := 0x8000_0000_0000_0000

  type Byte = bv8

  function Min(a: int, b: int): int {
    if a <= b then a else b
  }

  function Max(a: int, b: int): int {
    if a <= b then b else a
  }

  /** Rust's `saturating_sub` on unsigned words. */
  function SaturatingSub(a: nat, b: nat): nat {
    if a < b then 0 else a - b
  }

  /** The remainder, by repeated subtraction: see `DivIsQuotient`. */
  function Rem(i: nat, m: nat): (r: nat)
    requires m > 0
    ensures r < m
  {
    if i < m then i else Rem(i - m, m)
  }

  lemma DivisionUnique(x: nat, m: nat, q: nat, r: nat)
    requires m > 0 && r < m && x == m * q + r
    ensures x / m == q && x % m == r
  {
    var q' := x / m;
    if q' < q {
      MulMonotone(q' + 1, q, m);
    } else if q < q' {
      MulMonotone(q + 1, q', m);
    }
  }

  lemma MulMonotone(a: nat, b: nat, m: nat)
    requires a <= b
    ensures a * m <= b * m
  {
  }

  /** Two numbers less than one modulus apart have different remainders. */
  lemma {:induction false} RemDistinct(i: nat, j: nat, m: nat)
    requires m > 0 && i < j < i + m
    ensures Rem(i, m) != Rem(j, m)
  {
    if i >= m {
      RemDistinct(i - m, j - m, m);
    }
  }

  /** Adding a multiple of the modulus leaves the remainder alone. */
  lemma {:induction false} RemPlus(x: nat, y: nat, m: nat)
    requires m > 0 && Rem(y, m) == 0
    ensures Rem(x + y, m) == Rem(x, m)
  {
    if y >= m {
      RemPlus(x, y - m, m);
    }
  }

  lemma {:induction false} RemSum(i: nat, d: nat, m: nat)
    requires m > 0
    ensures Rem(Rem(i, m) + d, m) == Rem(i + d, m)
  {
    if i >= m {
      RemSum(i - m, d, m);
    }
  }

  /** A modulus that divides a larger one cannot see the larger one wrap around. */
  lemma {:induction false} RemOfRem(x: nat, big: nat, m: nat)
    requires m > 0 && big > 0 && Rem(big, m) == 0
    ensures Rem(Rem(x, big), m) == Rem(x, m)
  {
    if x >= big {
      RemOfRem(x - big, big, m);
      RemPlus(x - big, big, m);
    }
  }

  /** A slice of a slice is a slice. */
  lemma SubSlice<T>(s: seq<T>, a: nat, b: nat, c: nat, d: nat)
    requires a <= b <= |s| && c <= d <= b - a
    ensures s[a..b][c..d] == s[a + c..a + d]
  {
    forall k | 0 <= k < d - c
      ensures s[a..b][c..d][k] == s[a + c..a + d][k]
    {
      assert s[a..b][c..d][k] == s[a..b][c + k] == s[a + c + k];
    }
  }

  /** The quotient, by repeated subtraction: see `DivIsQuotient`. */
  function Div(i: nat, m: nat): nat
    requires m > 0
  {
    if i < m then 0 else 1 + Div(i - m, m)
  }

  /** The product, by repeated addition: see `TimesIsProduct`. */
  function Times(k: nat, m: nat): nat {
    if k == 0 then 0 else Times(k - 1, m) + m
  }

  lemma {:induction false} TimesIsProduct(k: nat, m: nat)
    ensures Times(k, m) == k * m
  {
    if k > 0 {
      TimesIsProduct(k - 1, m);
      assert k * m == (k - 1) * m + m;
    }
  }

  lemma {:induction false} DivIsQuotient(i: nat, m: nat)
    requires m > 0
    ensures Div(i, m) == i / m && Rem(i, m) == i % m
  {
    DivRem(i, m);
    TimesIsProduct(Div(i, m), m);
    assert Div(i, m) * m == m * Div(i, m);
    DivisionUnique(i, m, Div(i, m), Rem(i, m));
  }

  lemma {:induction false} DivRem(i: nat, m: nat)
    requires m > 0
    ensures Times(Div(i, m), m) + Rem(i, m) == i
  {
    if i >= m {
      DivRem(i - m, m);
    }
  }

  lemma {:induction false} DivTimes(k: nat, m: nat, off: nat)
    requires off < m
    ensures Div(Times(k, m) + off, m) == k && Rem(Times(k, m) + off, m) == off
  {
    if k > 0 {
      DivTimes(k - 1, m, off);
    }
  }

  lemma {:induction false} DivMonotone(i: nat, j: nat, m: nat)
    requires m > 0 && i <= j
    ensures Div(i, m) <= Div(j, m)
  {
    if i >= m {
      DivMonotone(i - m, j - m, m);
    }
  }

  lemma {:induction false} TimesMonotone(k: nat, l: nat, m: nat)
    requires k < l
    ensures Times(k, m) + m <= Times(l, m)
  {
    if k + 1 < l {
      TimesMonotone(k, l - 1, m);
    }
  }

  function Pow2(k: nat): (p: nat)
    ensures p >= 1
  {
    if k == 0 then 1 else 2 * Pow2(k - 1)
  }

  /** A power of two leaves no remainder in any larger one. */
  lemma {:induction false} Pow2Divides(j: nat, k: nat)
    requires j <= k
    ensures Pow2(j) <= Pow2(k) && Rem(Pow2(k), Pow2(j)) == 0
  {
    if j < k {
      Pow2Divides(j, k - 1);
      RemPlus(Pow2(k - 1), Pow2(k - 1), Pow2(j));
    }
  }

  lemma WordIsPow2()
    ensures Pow2(63) == HALF_WORD && Pow2(64) == WORD
  {
    assert Pow2(64) == 0x100 * Pow2(56) by { Pow2Byte(56); }
    assert Pow2(56) == 0x100 * Pow2(48) by { Pow2Byte(48); }
    assert Pow2(48) == 0x100 * Pow2(40) by { Pow2Byte(40); }
    assert Pow2(40) == 0x100 * Pow2(32) by { Pow2Byte(32); }
    assert Pow2(32) == 0x100 * Pow2(24) by { Pow2Byte(24); }
    assert Pow2(24) == 0x100 * Pow2(16) by { Pow2Byte(16); }
    assert Pow2(16) == 0x100 * Pow2(8) by { Pow2Byte(8); }
    assert Pow2(8) == 0x100 * Pow2(0) by { Pow2Byte(0); }
  }

  lemma Pow2Byte(k: nat)
    ensures Pow2(k + 8) == 0x100 * Pow2(k)
  {
    assert Pow2(k + 8) == 4 * Pow2(k + 6) == 16 * Pow2(k + 4) == 64 * Pow2(k + 2);
  }
}
