/** Bit lengths of natural numbers and the powers of two that bound them. */
module BitLengths {
  import opened Arithmetic

  /** `int.bit_length` of a non-negative integer. */
  function BitLength(n: nat): nat {
    if n == 0 then 0 else 1 + BitLength(n / 2)
  }

  function Pow2(k: nat): (p: nat)
    ensures p >= 1
  {
    if k == 0 then 1 else 2 * Pow2(k - 1)
  }

  /** `k` bits hold exactly the numbers below the `k`-th power of two. */
  lemma {:induction false} BitLengthBounds(n: nat, k: nat)
    ensures BitLength(n) <= k <==> n < Pow2(k)
    decreases n
  {
    if n > 0 && k > 0 {
      BitLengthBounds(n / 2, k - 1);
    }
  }

  lemma {:induction false} Pow2Adds(i: nat, j: nat)
    ensures Pow2(i + j) == Pow2(i) * Pow2(j)
  {
    if i > 0 {
      Pow2Adds(i - 1, j);
      assert Pow2(i + j) == 2 * Pow2(i - 1 + j);
    }
  }

  /** The bits of a product are at most those of its factors together. */
  lemma ProductBits(a: nat, b: nat)
    ensures BitLength(a * b) <= BitLength(a) + BitLength(b)
  {
    hide BitLength, Pow2;
    var i, j := BitLength(a), BitLength(b);
    BitLengthBounds(a, i);
    BitLengthBounds(b, j);
    Pow2Adds(i, j);
    ProductIsMonotone(a, b, Pow2(i), Pow2(j));
    BitLengthBounds(a * b, i + j);
  }

  lemma SumBits(a: nat, b: nat, k: nat)
    ensures BitLength(a) <= k && BitLength(b) <= k ==> BitLength(a + b) <= k + 1
  {
    BitLengthBounds(a, k);
    BitLengthBounds(b, k);
    BitLengthBounds(a + b, k + 1);
  }

  lemma FewerBits(a: nat, b: nat)
    ensures a <= b ==> BitLength(a) <= BitLength(b)
  {
    BitLengthBounds(b, BitLength(b));
    BitLengthBounds(a, BitLength(b));
  }
}
