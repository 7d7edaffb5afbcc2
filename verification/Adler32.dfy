// The checksum of a zlib stream (RFC 1950, section 2.2), and the loop of
// tools/usermod/glyphcore/inflate.c that takes the remainder once for each chunk of 5552 bytes.
module Adler32 {
  import opened Bits

  const BASE := 65521
  const CHUNK := 5552
  const LIMIT := 0x1_0000_0000

  newtype uint32 = x: int | 0 <= x < LIMIT

  /** The two sums after `data`, with a remainder after every byte. */
  function Sums(data: seq<byte>): (nat, nat) {
    if data == [] then (1, 0)
    else
      var (a, b) := Sums(data[..|data| - 1]);
      var a' := (a + data[|data| - 1]) % BASE;
      (a', (b + a') % BASE)
  }

  function Checksum(data: seq<byte>): nat {
    Sums(data).1 * 0x1_0000 + Sums(data).0
  }

  /** The sum of the bytes. */
  function Total(data: seq<byte>): nat {
    if data == [] then 0 else data[0] + Total(data[1..])
  }

  /** The sum of the bytes, each as often as there are bytes from it to the end. */
  function Weighted(data: seq<byte>): nat {
    if data == [] then 0 else |data| * data[0] + Weighted(data[1..])
  }

  /** The two sums from `(a, b)` on, with no remainder. */
  function RawSums(a: nat, b: nat, data: seq<byte>): (nat, nat) {
    if data == [] then (a, b)
    else
      var (a', b') := RawSums(a, b, data[..|data| - 1]);
      (a' + data[|data| - 1], b' + a' + data[|data| - 1])
  }

  /** What `k` bytes of 255 add up to; the largest sums that `k` bytes can reach. */
  function Triangle(k: nat): nat {
    if k == 0 then 0 else Triangle(k - 1) + k
  }

  lemma {:induction false} TriangleValue(k: nat)
    ensures 2 * Triangle(k) == k * (k + 1)
  {
    if k > 0 {
      TriangleValue(k - 1);
    }
  }

  lemma {:induction false} RawBound(a: nat, b: nat, data: seq<byte>)
    requires a < BASE && b < BASE
    ensures var (x, y) := RawSums(a, b, data);
            x <= (BASE - 1) + 255 * |data| && y <= (BASE - 1) * (|data| + 1) + 255 * Triangle(|data|)
  {
    if data != [] {
      RawBound(a, b, data[..|data| - 1]);
    }
  }

  lemma {:induction false} TriangleGrows(k: nat, n: nat)
    requires k <= n
    ensures Triangle(k) <= Triangle(n)
    decreases n
  {
    if k < n {
      TriangleGrows(k, n - 1);
    }
  }

  /** A chunk of at most 5552 bytes keeps both sums below 2 to the 32. */
  lemma ChunkFits(a: nat, b: nat, data: seq<byte>)
    requires a < BASE && b < BASE && |data| <= CHUNK
    ensures RawSums(a, b, data).0 < LIMIT && RawSums(a, b, data).1 < LIMIT
  {
    RawBound(a, b, data);
    TriangleGrows(|data|, CHUNK);
    TriangleValue(CHUNK);
  }

  function Repeated(b: byte, n: nat): (r: seq<byte>)
    ensures |r| == n && forall i :: 0 <= i < n ==> r[i] == b
  {
    seq(n, _ => b)
  }

  lemma {:induction false} RawOfRepeated(a: nat, b: nat, n: nat)
    ensures RawSums(a, b, Repeated(255, n)) == (a + 255 * n, b + a * n + 255 * Triangle(n))
  {
    if n > 0 {
      assert Repeated(255, n)[..n - 1] == Repeated(255, n - 1);
      RawOfRepeated(a, b, n - 1);
    }
  }

  /** One byte more breaks the bound: 5553 bytes of 255 from the largest remainders overflow. */
  lemma LongerChunkOverflows()
    ensures RawSums(BASE - 1, BASE - 1, Repeated(255, CHUNK + 1)).1 >= LIMIT
  {
    RawOfRepeated(BASE - 1, BASE - 1, CHUNK + 1);
    TriangleValue(CHUNK + 1);
  }

  lemma LateMod(x: nat, d: nat)
    ensures (x % BASE + d) % BASE == (x + d) % BASE
  {
  }

  lemma SumsStep(data: seq<byte>, x: nat, y: nat, b: byte)
    requires Sums(data) == (x % BASE, y % BASE)
    ensures Sums(data + [b]) == ((x + b) % BASE, (y + x + b) % BASE)
  {
    assert (data + [b])[..|data|] == data;
    LateMod(x, b);
    LateMod(y, (x + b) % BASE);
    LateMod(x + b, y);
  }

  /** Taking the remainders late gives the same remainders. */
  lemma {:induction false} LateRemainder(before: seq<byte>, chunk: seq<byte>)
    ensures var (a, b) := Sums(before); var (x, y) := RawSums(a, b, chunk);
            Sums(before + chunk) == (x % BASE, y % BASE)
  {
    var (a, b) := Sums(before);
    if chunk == [] {
      SumsBelow(before);
      assert before + chunk == before;
    } else {
      var n := |chunk| - 1;
      LateRemainder(before, chunk[..n]);
      var (x, y) := RawSums(a, b, chunk[..n]);
      SumsStep(before + chunk[..n], x, y, chunk[n]);
      assert before + chunk == before + chunk[..n] + [chunk[n]];
    }
  }

  lemma SumsBelow(data: seq<byte>)
    ensures Sums(data).0 < BASE && Sums(data).1 < BASE
  {
  }

  lemma {:induction false} OneByteMore(data: seq<byte>, b: byte)
    ensures Total(data + [b]) == Total(data) + b && Weighted(data + [b]) == Weighted(data) + Total(data) + b
  {
    if data != [] {
      assert (data + [b])[1..] == data[1..] + [b];
      OneByteMore(data[1..], b);
    } else {
      assert (data + [b])[1..] == [];
    }
  }

  /** The closed form of the checksum, as section 8.2 of RFC 1950 gives it: two sums over all the bytes. */
  lemma {:induction false} SumsAreTotals(data: seq<byte>)
    ensures Sums(data) == ((1 + Total(data)) % 65521, (|data| + Weighted(data)) % 65521)
  {
    if data != [] {
      var n := |data| - 1;
      SumsAreTotals(data[..n]);
      SumsStep(data[..n], 1 + Total(data[..n]), n + Weighted(data[..n]), data[n]);
      OneByteMore(data[..n], data[n]);
      assert data == data[..n] + [data[n]];
    }
  }

  lemma ChecksumHalves(data: seq<byte>)
    ensures Checksum(data) % 0x1_0000 == (1 + Total(data)) % 65521
    ensures Checksum(data) / 0x1_0000 == (|data| + Weighted(data)) % 65521
  {
    hide Sums, Total, Weighted;
    SumsAreTotals(data);
  }

  lemma SumsOfNone(data: seq<byte>)
    requires data == []
    ensures Sums(data) == (1, 0)
  {
  }

  /** One chunk, added up with no remainder; no sum wraps around. */
  method AddChunk(data: array<byte>, from: nat, chunk: nat, a0: uint32, b0: uint32) returns (a: uint32, b: uint32)
    requires from + chunk <= data.Length && chunk <= CHUNK && a0 < 65521 && b0 < 65521
    ensures (a as nat, b as nat) == RawSums(a0 as nat, b0 as nat, data[from..from + chunk])
  {
    a, b := a0, b0;
    for i := 0 to chunk
      invariant (a as nat, b as nat) == RawSums(a0 as nat, b0 as nat, data[from..from + i])
    {
      ghost var next := data[from..from + i + 1];
      assert next[..i] == data[from..from + i] && next[i] == data[from + i];
      ChunkFits(a0 as nat, b0 as nat, next);
      a := a + data[from + i] as uint32;
      b := b + a;
    }
  }

  /** The checksum, in 32-bit arithmetic. */
  method Compute(data: array<byte>, len: nat) returns (sum: uint32)
    requires len <= data.Length
    ensures sum as int == Checksum(data[..len])
    ensures sum as int % 0x1_0000 == (1 + Total(data[..len])) % 65521
    ensures sum as int / 0x1_0000 == (len + Weighted(data[..len])) % 65521
  {
    hide RawSums, Sums, Total, Weighted;
    var a: uint32, b: uint32 := 1, 0;
    var done := 0;
    SumsOfNone(data[..0]);
    while done < len
      invariant done <= len && a < 65521 && b < 65521
      invariant Sums(data[..done]) == (a as nat, b as nat)
    {
      var chunk := if len - done < CHUNK then len - done else CHUNK;
      LateRemainder(data[..done], data[done..done + chunk]);
      assert data[..done] + data[done..done + chunk] == data[..done + chunk];
      a, b := AddChunk(data, done, chunk, a, b);
      done := done + chunk;
      a, b := a % 65521, b % 65521;
    }
    sum := b * 0x1_0000 + a;
    ChecksumHalves(data[..len]);
  }
}
