// Bytes, the machine shifts, and the two orders in which DEFLATE packs values into bytes
// (RFC 1951, section 3.1.1). A place in a stream is one number: the count of bits before it.
module Bits {
  type byte = x: int | 0 <= x < 256
  type bit = x: int | 0 <= x < 2

  datatype Option<+T> = None | Some(value: T)

  function Pow2(n: nat): nat {
    if n == 0 then 1 else 2 * Pow2(n - 1)
  }

  /** `x << n` on a number that does not overflow: `n` doublings. */
  function Shl(x: nat, n: nat): nat {
    if n == 0 then x else 2 * Shl(x, n - 1)
  }

  /** `x >> n`: `n` halvings. */
  function Shr(x: nat, n: nat): nat {
    if n == 0 then x else Shr(x / 2, n - 1)
  }

  /** `x & ((1 << n) - 1)`: the low `n` bits of `x`. */
  function Mask(x: nat, n: nat): nat {
    if n == 0 then 0 else x % 2 + 2 * Mask(x / 2, n - 1)
  }

  /** The bits of a stream: those of a byte come least significant first. */
  function Unpack(data: seq<byte>): (bits: seq<bit>)
    ensures |bits| == 8 * |data|
  {
    seq(8 * |data|, k requires 0 <= k < 8 * |data| => Shr(data[k / 8], k % 8) % 2)
  }

  /** The `n` bits at `p` as a number that is packed least significant bit first. */
  function Value(bits: seq<bit>, p: nat, n: nat): nat
    requires p + n <= |bits|
    decreases n
  {
    if n == 0 then 0 else bits[p] + 2 * Value(bits, p + 1, n - 1)
  }

  /** The `n` bits at `p` as a Huffman code, which is packed most significant bit first. */
  function CodeValue(bits: seq<bit>, p: nat, n: nat): nat
    requires p + n <= |bits|
  {
    if n == 0 then 0 else 2 * CodeValue(bits, p, n - 1) + bits[p + n - 1]
  }

  /** Cutting `n` bits after the first `a`: the two parts are the mask and the shift. */
  lemma {:induction false} ValueCut(bits: seq<bit>, p: nat, n: nat, a: nat)
    requires a <= n && p + n <= |bits|
    ensures Mask(Value(bits, p, n), a) == Value(bits, p, a)
    ensures Shr(Value(bits, p, n), a) == Value(bits, p + a, n - a)
    decreases a
  {
    if a == 0 {
    } else {
      ValueCut(bits, p + 1, n - 1, a - 1);
    }
  }

  /** Joining bits above `a` bits is an or with the shifted part, a sum as no bit is in both. */
  lemma {:induction false} ValueJoin(bits: seq<bit>, p: nat, n: nat, a: nat)
    requires a <= n && p + n <= |bits|
    ensures Value(bits, p, n) == Value(bits, p, a) + Shl(Value(bits, p + a, n - a), a)
    decreases a
  {
    if a == 0 {
    } else {
      ValueJoin(bits, p + 1, n - 1, a - 1);
    }
  }

  lemma {:induction false} ValueBound(bits: seq<bit>, p: nat, n: nat)
    requires p + n <= |bits|
    ensures Value(bits, p, n) < Pow2(n)
    decreases n
  {
    if n > 0 {
      ValueBound(bits, p + 1, n - 1);
    }
  }

  lemma {:induction false} ShrOnce(x: nat, n: nat)
    ensures Shr(x, n + 1) == Shr(x, n) / 2
  {
    if n == 0 {
      assert Shr(x, 1) == Shr(x / 2, 0);
    } else {
      ShrOnce(x / 2, n - 1);
    }
  }

  /** A number below 2 to the `n` loses its last bit in `n` halvings. */
  lemma {:induction false} ShrBound(x: nat, n: nat)
    requires x < Pow2(n)
    ensures Shr(x, n) == 0
  {
    if n > 0 {
      ShrBound(x / 2, n - 1);
    }
  }

  lemma {:induction false} ByteBits(data: seq<byte>, i: nat, j: nat)
    requires i < |data| && j <= 8
    ensures Value(Unpack(data), 8 * i + j, 8 - j) == Shr(data[i], j)
    decreases 8 - j
  {
    if j == 8 {
      assert Pow2(4) == 16 && Pow2(8) == 256;
      ShrBound(data[i], 8);
    } else {
      assert (8 * i + j) / 8 == i && (8 * i + j) % 8 == j;
      ByteBits(data, i, j + 1);
      ShrOnce(data[i], j);
    }
  }

  /** The eight bits of a whole byte are the byte. */
  lemma ByteValue(data: seq<byte>, i: nat)
    requires i < |data|
    ensures Value(Unpack(data), 8 * i, 8) == data[i]
  {
    ByteBits(data, i, 0);
  }
}
