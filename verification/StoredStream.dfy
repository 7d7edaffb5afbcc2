// The inverse of the inflater: a writer of zlib streams that packs any bytes into stored blocks
// (RFC 1950, section 2.2; RFC 1951, section 3.2.4), and the round trip through Inflate.
module StoredStream {
  import opened Bits
  import opened Deflate
  import opened Inflate
  import Adler32

  /** LEN and NLEN, the low byte first. */
  function Head(n: nat): seq<byte>
    requires n <= 0xFFFF
  {
    [n % 256, n / 256, 255 - n % 256, 255 - n / 256]
  }

  function Written(last: bool, part: seq<byte>): (r: seq<byte>)
    requires |part| <= 0xFFFF
    ensures |r| == 5 + |part|
  {
    [if last then 1 else 0] + Head(|part|) + part
  }

  /** Stored blocks of 65535 bytes, and a last one with the rest. */
  function Packed(data: seq<byte>): seq<byte>
    decreases |data|
  {
    if |data| <= 0xFFFF then Written(true, data)
    else Written(false, data[..0xFFFF]) + Packed(data[0xFFFF..])
  }

  /** The checksum of section 8.2 of RFC 1950, the high byte first. */
  function Trailer(data: seq<byte>): (r: seq<byte>)
    ensures |r| == 4
  {
    var high, low := (|data| + Adler32.Weighted(data)) % 65521, (1 + Adler32.Total(data)) % 65521;
    [high / 256, high % 256, low / 256, low % 256]
  }

  function Stream(data: seq<byte>): seq<byte> {
    [0x78, 0x01] + Packed(data) + Trailer(data)
  }

  ghost predicate StandsIn(all: seq<byte>, at: nat, part: seq<byte>) {
    at + |part| <= |all| && all[at..at + |part|] == part
  }

  lemma StandsBoth(all: seq<byte>, at: nat, a: seq<byte>, b: seq<byte>)
    requires StandsIn(all, at, a + b)
    ensures StandsIn(all, at, a) && StandsIn(all, at + |a|, b)
  {
    var whole := all[at..at + |a + b|];
    assert whole[..|a|] == a && whole[|a|..] == b;
  }

  /** The three bits in front of a block. */
  lemma BlockBits(all: seq<byte>, at: nat, v: nat)
    requires at < |all| && all[at] == v && v < 2
    ensures SpellsNumber(Unpack(all), 8 * at, 1, v) && SpellsNumber(Unpack(all), 8 * at + 1, 2, 0)
  {
    hide Unpack, Value;
    ByteValue(all, at);
    ValueCut(Unpack(all), 8 * at, 8, 1);
    ValueCut(Unpack(all), 8 * at + 1, 7, 2);
    assert Mask(v, 1) == v && Shr(v, 1) == 0 && Mask(0, 2) == 0;
  }

  lemma HeadSpells(all: seq<byte>, at: nat, n: nat)
    requires n <= 0xFFFF && StandsIn(all, at, Head(n))
    ensures SpellsNumber(Unpack(all), 8 * at, 16, n) && SpellsNumber(Unpack(all), 8 * at + 16, 16, 0xFFFF - n)
  {
    hide Unpack, Value;
    var head := all[at..at + 4];
    assert head[0] == all[at] && head[1] == all[at + 1] && head[2] == all[at + 2] && head[3] == all[at + 3];
    TwoBytes(all, at);
    TwoBytes(all, at + 2);
  }

  lemma PartSpells(all: seq<byte>, at: nat, part: seq<byte>)
    requires StandsIn(all, at, part)
    ensures SpellsBytes(Unpack(all), 8 * at, part)
  {
    hide Unpack, Value;
    forall i | 0 <= i < |part| ensures Value(Unpack(all), 8 * at + 8 * i, 8) == part[i] {
      ByteValue(all, at + i);
      assert all[at..at + |part|][i] == all[at + i];
      assert 8 * (at + i) == 8 * at + 8 * i;
    }
  }

  lemma BlockSpells(all: seq<byte>, at: nat, last: bool, part: seq<byte>)
    requires |part| <= 0xFFFF && StandsIn(all, at, Written(last, part))
    ensures SpellsNumber(Unpack(all), 8 * at, 1, if last then 1 else 0) && SpellsNumber(Unpack(all), 8 * at + 1, 2, 0)
    ensures SpellsBody(Unpack(all), 8 * at + 3, Stored(part), 8 * (at + 5 + |part|))
  {
    hide Unpack, Value, Head, StandsIn;
    var flag: seq<byte> := [if last then 1 else 0];
    StandsBoth(all, at, flag + Head(|part|), part);
    StandsBoth(all, at, flag, Head(|part|));
    FirstStands(all, at, flag[0]);
    BlockBits(all, at, flag[0]);
    HeadSpells(all, at + 1, |part|);
    HeadIsFour(|part|);
    PartSpells(all, at + 5, part);
  }

  lemma StartStands(part: seq<byte>, rest: seq<byte>)
    ensures StandsIn(part + rest, 0, part)
  {
  }

  lemma FirstStands(all: seq<byte>, at: nat, b: byte)
    requires StandsIn(all, at, [b])
    ensures at < |all| && all[at] == b
  {
    assert all[at] == all[at..at + 1][0];
  }

  lemma HeadIsFour(n: nat)
    requires n <= 0xFFFF
    ensures |Head(n)| == 4
  {
  }

  lemma {:induction false} PackedSpells(all: seq<byte>, at: nat, data: seq<byte>, out: seq<byte>)
    returns (blocks: seq<Block>)
    requires StandsIn(all, at, Packed(data))
    ensures SpellsBlocks(Unpack(all), 8 * at, blocks, 8 * (at + |Packed(data)|))
    ensures Expand(blocks, out) == Some(out + data)
    decreases |data|
  {
    hide Unpack, Value, Written, SpellsNumber, SpellsBody, StandsIn;
    if |data| <= 0xFFFF {
      BlockSpells(all, at, true, data);
      blocks := [Stored(data)];
      assert blocks[1..] == [];
    } else {
      var part, others := data[..0xFFFF], data[0xFFFF..];
      StandsBoth(all, at, Written(false, part), Packed(others));
      BlockSpells(all, at, false, part);
      var rest := PackedSpells(all, at + 5 + 0xFFFF, others, out + part);
      blocks := [Stored(part)] + rest;
      assert blocks[1..] == rest;
      assert out + data == out + part + others;
    }
  }

  lemma TrailerIsGood(all: seq<byte>, at: nat, data: seq<byte>)
    requires StandsIn(all, at, Trailer(data))
    ensures GoodTrailer(all, 8 * at, data)
  {
    hide Adler32.Checksum, Adler32.Total, Adler32.Weighted;
    Adler32.ChecksumHalves(data);
    var t := all[at..at + 4];
    assert Align(8 * at) / 8 == at;
    var high, low := 0x100 * (t[0] as nat) + t[1], 0x100 * (t[2] as nat) + t[3];
    assert BigEndian(t) == 0x1_0000 * high + low;
  }

  /** Whatever bytes are packed, and whatever follows the stream: it inflates to those bytes. */
  lemma RoundTrip(data: seq<byte>, after: seq<byte>, cap: nat)
    requires |data| <= cap
    ensures Inflates(Stream(data) + after, cap, data)
  {
    hide Unpack, Packed, Trailer, GoodTrailer, Expand, SpellsBlocks, StandsIn;
    var input := Stream(data) + after;
    var all := Packed(data) + Trailer(data) + after;
    assert input[2..] == all;
    StartStands(Packed(data) + Trailer(data), after);
    StandsBoth(all, 0, Packed(data), Trailer(data));
    var blocks := PackedSpells(all, 0, data, []);
    TrailerIsGood(all, |Packed(data)|, data);
    assert [] + data == data;
    assert input[0] == 0x78 && input[1] == 1;
    var end := 8 * |Packed(data)|;
    assert SpellsBlocks(Unpack(input[2..]), 0, blocks, end);
    assert ZlibStream(input, blocks, data);
  }
}
