/** Unsigned little-endian integers of any width, as the WAVE header stores
    them and as a little-endian host lays them out in memory. */
module LittleEndian {
  import opened Bytes

  /** 256 to the power `n`: one more than the largest `n`-byte value. */
  function Pow256(n: nat): (p: nat)
    ensures p > 0
  {
    if n == 0 then 1 else 256 * Pow256(n - 1)
  }

  /** The value of the bytes `bs`, least significant first. */
  function Le(bs: seq<byte>): (x: nat)
    ensures x < Pow256(|bs|)
  {
    if |bs| == 0 then 0 else bs[0] as nat + 256 * Le(bs[1..])
  }

  /** The `n` bytes of `x`, least significant first. */
  function LeBytes(x: nat, n: nat): (bs: seq<byte>)
    requires x < Pow256(n)
    ensures |bs| == n
  {
    if n == 0 then [] else [(x % 256) as byte] + LeBytes(x / 256, n - 1)
  }

  /** Decoding undoes encoding. */
  lemma {:induction false} LeOfLeBytes(x: nat, n: nat)
    requires x < Pow256(n)
    ensures Le(LeBytes(x, n)) == x
  {
    if n > 0 {
      var bs := LeBytes(x, n);
      LeOfLeBytes(x / 256, n - 1);
      assert bs[1..] == LeBytes(x / 256, n - 1);
    }
  }

  /** Encoding undoes decoding: every byte sequence is the encoding of its
      value at its own width. */
  lemma {:induction false} LeBytesOfLe(bs: seq<byte>)
    ensures LeBytes(Le(bs), |bs|) == bs
  {
    if |bs| > 0 {
      var x := Le(bs);
      var rest := bs[1..];
      DigitSplit(bs[0] as nat, Le(rest));
      LeBytesOfLe(rest);
      assert bs == [bs[0]] + rest;
    }
  }

  /** Division by 256 splits off the low byte again. */
  lemma DigitSplit(low: nat, high: nat)
    requires low < 256
    ensures (low + 256 * high) % 256 == low && (low + 256 * high) / 256 == high
  {
  }

  /** The widths the WAVE header uses. */
  lemma Widths()
    ensures Pow256(2) == 0x1_0000 && Pow256(4) == 0x1_0000_0000
  {
  }
}
