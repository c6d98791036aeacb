/** Powers of two, right shifts and bit lengths, with the linear facts the Merkle tree needs. */
module Powers {

  function Pow2(n: nat): (r: nat)
    ensures r >= 1
  {
    if n == 0 then 1 else 2 * Pow2(n - 1)
  }

  /** The right shift `j >> h`. */
  function Up(j: nat, h: nat): nat {
    if h == 0 then j else Up(j, h - 1) / 2
  }

  /** The left shift `i << h`: the leftmost descendant `h` levels below `i`. */
  function Down(i: nat, h: nat): nat
    decreases h
  {
    if h == 0 then i else Down(2 * i, h - 1)
  }

  function BitLen(n: nat): nat {
    if n == 0 then 0 else 1 + BitLen(n / 2)
  }

  /** ceil(log2 n), and 0 for n == 0. */
  function CeilLog2(n: nat): nat {
    if n == 0 then 0 else BitLen(n - 1)
  }

  lemma {:induction false} Pow2Monotone(a: nat, b: nat)
    requires a <= b
    ensures Pow2(a) <= Pow2(b)
  {
    if a < b {
      Pow2Monotone(a, b - 1);
    }
  }

  /** A number has bit length at most `k` exactly when it is below 2^k. */
  lemma {:induction false} BitLenBound(n: nat, k: nat)
    ensures BitLen(n) <= k <==> n < Pow2(k)
  {
    if k == 0 {
    } else if n == 0 {
      Pow2Monotone(0, k);
    } else {
      BitLenBound(n / 2, k - 1);
    }
  }

  lemma BitLenExact(n: nat, k: nat)
    requires Pow2(k) <= n < Pow2(k + 1)
    ensures BitLen(n) == k + 1
  {
    BitLenBound(n, k);
    BitLenBound(n, k + 1);
  }

  lemma BitLenRange(n: nat)
    requires n >= 1
    ensures Pow2(BitLen(n) - 1) <= n < Pow2(BitLen(n))
  {
    BitLenBound(n, BitLen(n));
    BitLenBound(n, BitLen(n) - 1);
  }

  lemma BitLenChild(i: nat)
    requires i >= 1
    ensures BitLen(2 * i) == BitLen(2 * i + 1) == 1 + BitLen(i)
  {
  }

  /** CeilLog2 is the least height whose span holds `n` leaves. */
  lemma CeilLog2Range(n: nat)
    ensures n <= Pow2(CeilLog2(n))
    ensures CeilLog2(n) > 0 ==> Pow2(CeilLog2(n) - 1) < n
  {
    if n > 0 {
      BitLenBound(n - 1, CeilLog2(n));
      if CeilLog2(n) > 0 {
        BitLenBound(n - 1, CeilLog2(n) - 1);
      }
    }
  }

  lemma CeilLog2AtMost(n: nat, k: nat)
    ensures CeilLog2(n) <= k <==> n <= Pow2(k)
  {
    if n > 0 {
      BitLenBound(n - 1, k);
    }
  }

  lemma CeilLog2Monotone(a: nat, b: nat)
    requires a <= b
    ensures CeilLog2(a) <= CeilLog2(b)
  {
    CeilLog2Range(b);
    CeilLog2AtMost(a, CeilLog2(b));
  }

  /** Shifting a node up `h` levels takes `h` off its bit length. */
  lemma {:induction false} UpBitLen(j: nat, h: nat)
    requires h < BitLen(j)
    ensures Up(j, h) >= 1
    ensures BitLen(Up(j, h)) == BitLen(j) - h
  {
    if h > 0 {
      UpBitLen(j, h - 1);
    }
  }

  /** The leaves under node `i` at height `h` are one block of 2^h consecutive positions. */
  lemma {:induction false} UpIsBlock(j: nat, i: nat, h: nat)
    ensures Up(j, h) == i <==> Down(i, h) <= j < Down(i, h) + Pow2(h)
    decreases h
  {
    if h > 0 {
      UpIsBlock(j, 2 * i, h - 1);
      UpIsBlock(j, 2 * i + 1, h - 1);
      DownNext(2 * i, h - 1);
    }
  }

  lemma {:induction false} DownNext(i: nat, h: nat)
    ensures Down(i + 1, h) == Down(i, h) + Pow2(h)
    decreases h
  {
    if h > 0 {
      DownNext(2 * i, h - 1);
      DownNext(2 * i + 1, h - 1);
    }
  }

  lemma {:induction false} DownPow2(k: nat, h: nat)
    ensures Down(Pow2(k), h) == Pow2(k + h)
    decreases h
  {
    if h > 0 {
      DownPow2(k + 1, h - 1);
    }
  }
}
