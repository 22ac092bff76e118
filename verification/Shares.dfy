/** Task-queue shares: `Shares::reciprocal_shares` and the arithmetic of virtual time built on it. */
module Shares {
  import opened Words

  /** The numerator of the reciprocal. */
  const UNIT: nat := 0x40_0000

  /** A slice at least this long could overflow the scaled product. */
  const LONGEST_SLICE: nat := 0x400_0000_0000

  function Clamped(shares: nat): (c: nat)
    ensures 1 <= c <= 1000
  {
    Min(Max(shares, 1), 1000)
  }

  function Reciprocal(shares: nat): (r: nat)
    ensures 4194 <= r <= UNIT
  {
    var c := Clamped(shares);
    ReciprocalRange(c);
    UNIT / c
  }

  lemma ReciprocalRange(c: nat)
    requires 1 <= c <= 1000
    ensures 4194 <= UNIT / c <= UNIT
  {
    var q := UNIT / c;
    MulMonotone(c, 1000, q + 1);
    MulMonotone(1, c, q);
    assert c * q <= UNIT < c * (q + 1);
  }

  /** `current_shares` */
  function CurrentShares(reciprocal: nat): nat
    requires reciprocal > 0
  {
    UNIT / reciprocal
  }

  /** The shares reported back are exactly the shares asked for, kept between 1 and 1000. */
  lemma SharesRoundTrip(shares: nat)
    ensures CurrentShares(Reciprocal(shares)) == Clamped(shares)
    ensures Clamped(shares) == if shares == 0 then 1 else if shares > 1000 then 1000 else shares
  {
    var c := Clamped(shares);
    var q := Reciprocal(shares);
    DivisionUnique(UNIT, q, c, UNIT % c);
  }

  /** More shares never make virtual time run faster. */
  lemma MoreSharesSlowerClock(a: nat, b: nat)
    requires a <= b
    ensures Reciprocal(b) <= Reciprocal(a)
  {
    var p, q := Clamped(a), Clamped(b);
    var x, y := UNIT / p, UNIT / q;
    MulMonotone(p, q, x + 1);
    assert q * y <= UNIT < p * (x + 1);
    if x + 1 <= y {
      MulMonotone(x + 1, y, q);
    }
  }

  /** The virtual time of a slice: a 64-bit product, wrapping, shifted right by twelve. */
  function Scaled(reciprocal: nat, nanos: nat): nat {
    ((reciprocal * (nanos % WORD)) % WORD) / 4096
  }

  /**
   A slice shorter than `LONGEST_SLICE` does not wrap; it costs at least its own length and
   at most 1024 times that.
   */
  lemma ScaledBounds(reciprocal: nat, nanos: nat)
    requires 4194 <= reciprocal <= UNIT && nanos < LONGEST_SLICE
    ensures nanos <= Scaled(reciprocal, nanos) <= 1024 * nanos
    ensures 0 <= reciprocal * nanos - 4096 * Scaled(reciprocal, nanos) < 4096
  {
    MulMonotone(4096, reciprocal, nanos);
    MulMonotone(reciprocal, UNIT, nanos);
    assert reciprocal * nanos < WORD;
  }

  /** The bound is the exact one for a queue with a single share: at `LONGEST_SLICE` its product wraps to nothing. */
  lemma LongestSliceWraps()
    ensures Reciprocal(1) * LONGEST_SLICE == WORD && Scaled(Reciprocal(1), LONGEST_SLICE) == 0
  {
  }
}
