/** Byte strings, as the codecs see them, and unsigned numbers in network byte order. */
module Bytes {
  type byte = x: int | 0 <= x < 256

  type Bytes = seq<byte>

  /** n >> (8 * i) */
  function ShiftBytes(n: nat, i: nat): nat {
    if i == 0 then n else ShiftBytes(n / 256, i - 1)
  }

  /** The k low-order bytes of n, most significant first. */
  function BigEndian(n: nat, k: nat): (r: Bytes)
    ensures |r| == k
  {
    if k == 0 then [] else BigEndian(n / 256, k - 1) + [n % 256]
  }

  function Value(s: Bytes): nat {
    if s == [] then 0 else Value(s[..|s| - 1]) * 256 + s[|s| - 1]
  }

  /** 256 to the k. */
  function Radix(k: nat): (r: nat)
    ensures r > 0
  {
    if k == 0 then 1 else 256 * Radix(k - 1)
  }

  lemma {:induction false} BigEndianByte(n: nat, k: nat, j: nat)
    requires j < k
    ensures BigEndian(n, k)[j] == ShiftBytes(n, k - 1 - j) % 256
    decreases k
  {
    if j < k - 1 { BigEndianByte(n / 256, k - 1, j); }
  }

  /** k bytes hold every number below 256 to the k. */
  lemma {:induction false} ValueOfBigEndian(n: nat, k: nat)
    requires n < Radix(k)
    ensures Value(BigEndian(n, k)) == n
    decreases k
  {
    if k > 0 {
      ValueOfBigEndian(n / 256, k - 1);
      assert BigEndian(n, k)[..k - 1] == BigEndian(n / 256, k - 1);
    }
  }

  /** Pushing the bytes of n from the most significant down, as the loops over `>> (i * 8)` do. */
  method PushBigEndian(out: Bytes, n: nat, k: nat) returns (r: Bytes)
    ensures r == out + BigEndian(n, k)
  {
    r := out;
    var i := k;
    while i > 0
      invariant 0 <= i <= k
      invariant r == out + BigEndian(n, k)[..k - i]
    {
      i := i - 1;
      BigEndianByte(n, k, k - 1 - i);
      assert BigEndian(n, k)[..k - i] == BigEndian(n, k)[..k - 1 - i] + [ShiftBytes(n, i) % 256];
      r := r + [ShiftBytes(n, i) % 256];
    }
    assert BigEndian(n, k)[..k] == BigEndian(n, k);
  }
}
