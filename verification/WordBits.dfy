/**
  The bits of a number and of its little-endian bytes.
 */
module WordBits {
  import opened Wire

  /** Bit k of a number. */
  function Bit(n: nat, k: nat): nat {
    if k == 0 then n % 2 else Bit(n / 2, k - 1)
  }

  function Pow2(k: nat): nat { if k == 0 then 1 else 2 * Pow2(k - 1) }

  lemma {:induction false} BitLow(q: nat, y: nat, m: nat, k: nat)
    requires k < m
    ensures Bit(Pow2(m) * q + y, k) == Bit(y, k)
    decreases k
  {
    var p := Pow2(m - 1) * q;
    assert Pow2(m) * q == 2 * p;
    if k > 0 {
      assert (2 * p + y) / 2 == p + y / 2;
      BitLow(q, y / 2, m - 1, k - 1);
    }
  }

  lemma {:induction false} BitHigh(x: nat, m: nat, k: nat, q: nat, r: nat)
    requires r < Pow2(m) && x == Pow2(m) * q + r
    ensures Bit(x, m + k) == Bit(q, k)
    decreases m
  {
    if m == 0 {
      assert x == q;
    } else {
      var p := Pow2(m - 1);
      assert Pow2(m) * q == 2 * (p * q);
      assert x / 2 == p * q + r / 2;
      BitHigh(x / 2, m - 1, k, q, r / 2);
      assert Bit(x, m + k) == Bit(x / 2, m + k - 1);
    }
  }

  /** Bit k of the i-th byte is bit 8i + k of the number. */
  lemma {:induction false} BitOfByte(x: nat, n: nat, i: nat, k: nat)
    requires i < n && k < 8
    ensures |Le(x, n)| == n && Bit(Le(x, n)[i], k) == Bit(x, 8 * i + k)
  {
    LeLength(x, n);
    assert Pow2(4) == 16 && Pow2(8) == 256;
    if i == 0 {
      assert x == 256 * (x / 256) + x % 256;
      BitLow(x / 256, x % 256, 8, k);
    } else {
      BitHigh(x, 8, 8 * (i - 1) + k, x / 256, x % 256);
      BitOfByte(x / 256, n - 1, i - 1, k);
    }
  }

  lemma {:induction false} LeOfBytes(b: seq<byte>)
    ensures Le(FromLe(b), |b|) == b
  {
    if b == [] {
    } else {
      var more := FromLe(b[1..]);
      LeOfBytes(b[1..]);
      assert (b[0] + 0x100 * more) / 0x100 == more && (b[0] + 0x100 * more) % 0x100 == b[0];
      assert Le(b[0] + 0x100 * more, |b|) == [b[0]] + Le(more, |b| - 1);
      assert b == [b[0]] + b[1..];
    }
  }
}
