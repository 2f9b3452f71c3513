/**
 * The size of the transform buffer: one uniform block holding the combined
 * matrix, never smaller than the device's uniform-buffer offset alignment.
 */
module Uniform {

  /** Bytes of the uniform block: one 4x4 matrix of 32-bit floats. */
  const UNIFORM_BLOCK_BYTES := 16 * 4

  /** The larger of the block's size and the alignment the device reports. */
  function BlockSize(alignment: int): (r: int)
    ensures r >= UNIFORM_BLOCK_BYTES && r >= alignment
    ensures r == UNIFORM_BLOCK_BYTES || r == alignment
  {
    if alignment < UNIFORM_BLOCK_BYTES then UNIFORM_BLOCK_BYTES else alignment
  }

  function Pow2(k: nat): (r: nat)
    ensures r >= 1
  {
    if k == 0 then 1 else 2 * Pow2(k - 1)
  }

  /** Powers of two grow with the exponent. */
  lemma {:induction false} Pow2AtLeast(j: nat, k: nat)
    requires j <= k
    ensures Pow2(j) <= Pow2(k)
  {
    if j < k {
      Pow2AtLeast(j, k - 1);
    }
  }

  lemma ModSelf(n: int)
    requires n > 0
    ensures n % n == 0
  {
    assert n == n * 1 + 0;
  }

  /**
   * For the power-of-two alignments devices report, the chosen size is a
   * whole number of alignment units, so the mapped range starts and ends on
   * an alignment boundary.
   */
  lemma BlockSizeAligned(k: nat)
    ensures BlockSize(Pow2(k)) % Pow2(k) == 0
  {
    var n := Pow2(k);
    if k <= 6 {
      assert BlockSize(n) == 64;
      if k == 0 {
        assert n == 1;
      } else if k == 1 {
        assert n == 2;
      } else if k == 2 {
        assert n == 4;
      } else if k == 3 {
        assert n == 8;
      } else if k == 4 {
        assert n == 16;
      } else if k == 5 {
        assert n == 32;
      } else {
        assert n == 64;
      }
    } else {
      Pow2AtLeast(6, k);
      assert BlockSize(n) == n;
      ModSelf(n);
    }
  }
}
