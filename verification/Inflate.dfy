// tools/usermod/glyphcore/inflate.c as it runs: a bit buffer over a byte stream, count and symbol
// tables built in place, an output array that is its own dictionary. Every method is proved against
// the decoder of Deflate.dfy, and Inflate against the grammar.
module Inflate {
  import opened Bits
  import opened Huffman
  import opened Deflate
  import Adler32

  datatype Status = Ok | ErrHeader | ErrData | ErrOverflow | ErrChecksum

  /** `huffman_t`: how many codes each length has, and the coded symbols in code order. */
  class Table {
    const count: array<nat>
    const symbol: array<nat>

    constructor ()
      ensures fresh(count) && fresh(symbol) && count.Length == 16 && symbol.Length == FIXED_LITERAL_CODES
    {
      count := new nat[16];
      symbol := new nat[288];
    }

    ghost predicate Sized() {
      count.Length == 16 && symbol.Length == FIXED_LITERAL_CODES
    }

    ghost predicate Counted(lens: seq<codelen>, n: nat)
      requires Sized() && n <= |lens|
      reads count
    {
      forall l :: 0 <= l < 16 ==> count[l] == CountIn(lens, n, l)
    }

    ghost predicate Placed(lens: seq<codelen>, n: nat)
      requires Sized() && n <= |lens|
      reads symbol
    {
      forall s :: 0 <= s < n && lens[s] > 0 ==>
        Place(lens, s) < symbol.Length && symbol[Place(lens, s)] == s
    }

    /** The tables of the code with these lengths. */
    ghost predicate Built(lens: seq<codelen>)
      reads count, symbol
    {
      Sized() && |lens| <= FIXED_LITERAL_CODES && Counted(lens, |lens|) && Placed(lens, |lens|)
    }

    lemma SymbolAt(lens: seq<codelen>, l: nat, r: nat)
      requires Built(lens) && 0 < l <= MAX_BITS && r < Count(lens, l)
      ensures Index(lens, l) + r < symbol.Length
      ensures symbol[Index(lens, l) + r] == NthIn(lens, |lens|, l, r)
    {
      var s := NthIn(lens, |lens|, l, r);
      assert lens[s] == l;
    }

    /** The number of codes of `l` bits. */
    method CountAt(ghost lens: seq<codelen>, l: nat) returns (n: nat)
      requires Built(lens) && l <= MAX_BITS
      ensures n == Count(lens, l)
    {
      n := count[l];
    }

    /** The symbol with `r` codes of `l` bits before it. */
    method SymbolOf(ghost lens: seq<codelen>, ghost l: nat, ghost r: nat, at: nat) returns (s: nat)
      requires Built(lens) && 0 < l <= MAX_BITS && r < Count(lens, l) && at == Index(lens, l) + r
      ensures s == NthIn(lens, |lens|, l, r)
    {
      SymbolAt(lens, l, r);
      s := symbol[at];
    }

    method CountLengths(lengths: array<codelen>, start: nat, n: nat)
      requires start + n <= lengths.Length && Sized()
      modifies count
      ensures Counted(lengths[start..start + n], n)
    {
      for l := 0 to 16
        invariant forall k :: 0 <= k < l ==> count[k] == 0
      {
        count[l] := 0;
      }
      ghost var lens := lengths[start..start + n];
      for s := 0 to n
        invariant Counted(lens, s)
        invariant lengths[start..start + n] == lens
      {
        assert lens[s] == lengths[start + s];
        count[lengths[start + s]] := count[lengths[start + s]] + 1;
      }
    }

    method CheckLeft(ghost lens: seq<codelen>) returns (left: int)
      requires Sized() && Counted(lens, |lens|)
      ensures left < 0 <==> !NoNegative(lens, MAX_BITS)
      ensures left >= 0 ==> left == Left(lens, MAX_BITS)
    {
      left := 1;
      for l := 1 to 16
        invariant left == Left(lens, l - 1) && left >= 0 && NoNegative(lens, l - 1)
      {
        left := 2 * left - count[l];
        if left < 0 {
          NegativeStays(lens, l, MAX_BITS);
          return;
        }
      }
    }

    method Offsets(ghost lens: seq<codelen>) returns (offs: array<nat>)
      requires Sized() && Counted(lens, |lens|)
      ensures fresh(offs) && offs.Length == 16
      ensures forall k :: 1 <= k <= MAX_BITS ==> offs[k] == Index(lens, k)
    {
      offs := new nat[16];
      offs[1] := 0;
      for l := 1 to 15
        invariant forall k :: 1 <= k <= l ==> offs[k] == Index(lens, k)
      {
        offs[l + 1] := offs[l] + count[l];
      }
    }

    ghost predicate OffsetsAt(offs: array<nat>, lens: seq<codelen>, n: nat)
      requires offs.Length == 16 && n <= |lens|
      reads offs
    {
      forall k :: 1 <= k <= MAX_BITS ==> offs[k] == Index(lens, k) + CountIn(lens, n, k)
    }

    method PlaceOne(offs: array<nat>, ghost lens: seq<codelen>, s: nat, l: codelen)
      requires s < |lens| <= FIXED_LITERAL_CODES && lens[s] == l && Sized()
      requires offs.Length == 16 && offs != symbol && OffsetsAt(offs, lens, s) && Placed(lens, s)
      modifies symbol, offs
      ensures OffsetsAt(offs, lens, s + 1) && Placed(lens, s + 1)
    {
      if l != 0 {
        assert offs[l] == Place(lens, s);
        PlaceIsFree(lens, s);
        assert symbol.Length == FIXED_LITERAL_CODES;
        symbol[offs[l]] := s;
        assert Placed(lens, s + 1) by {
          hide Place;
        }
        offs[l] := offs[l] + 1;
      }
    }

    method PlaceSymbols(lengths: array<codelen>, start: nat, n: nat)
      requires start + n <= lengths.Length && n <= FIXED_LITERAL_CODES && Sized()
      requires Counted(lengths[start..start + n], n)
      modifies symbol
      ensures Placed(lengths[start..start + n], n)
    {
      hide Index, Counted, Place;
      ghost var lens := lengths[start..start + n];
      var offs := Offsets(lens);
      for s := 0 to n
        invariant OffsetsAt(offs, lens, s) && Placed(lens, s)
      {
        PlaceOne(offs, lens, s, lengths[start + s]);
      }
    }

    /** Builds the tables: zero for a complete code, negative for an over-subscribed one. */
    method Construct(lengths: array<codelen>, start: nat, n: nat) returns (left: int)
      requires start + n <= lengths.Length && n <= FIXED_LITERAL_CODES && Sized()
      modifies count, symbol
      ensures left == 0 <==> Complete(lengths[start..start + n])
      ensures (left < 0 || (left > 0 && n - count[0] != 1)) <==> !Usable(lengths[start..start + n])
      ensures left >= 0 ==> Built(lengths[start..start + n])
      ensures NoNegative(lengths[start..start + n], MAX_BITS) ==> left >= 0
    {
      ghost var lens := lengths[start..start + n];
      CountLengths(lengths, start, n);
      if count[0] == n {
        forall s | 0 <= s < n ensures lens[s] == 0 {
          EveryUncoded(lens, n, s);
        }
        return 0;
      }
      left := CheckLeft(lens);
      if left >= 0 {
        PlaceSymbols(lengths, start, n);
      }
    }
  }

  lemma {:induction false} EveryUncoded(lens: seq<codelen>, n: nat, s: nat)
    requires s < n <= |lens| && CountIn(lens, n, 0) == n
    ensures lens[s] == 0
  {
    CountAtMost(lens, n - 1, 0);
    if s < n - 1 {
      EveryUncoded(lens, n - 1, s);
    }
  }

  lemma {:induction false} NegativeStays(lens: seq<codelen>, l: nat, n: nat)
    requires l <= n && Left(lens, l) < 0
    ensures !NoNegative(lens, n)
    decreases n
  {
    if l < n {
      NegativeStays(lens, l, n - 1);
    }
  }

  function Place(lens: seq<codelen>, s: nat): nat
    requires s < |lens|
  {
    Index(lens, lens[s]) + CountIn(lens, s, lens[s])
  }

  /** A symbol's place lies in the span of its length. */
  lemma PlaceInSpan(lens: seq<codelen>, s: nat, l: nat)
    requires s < |lens| && lens[s] == l > 0
    ensures Index(lens, l) <= Place(lens, s) < Index(lens, l + 1) <= |lens|
  {
    NthIsUnique(lens, s);
    IndexAtMost(lens, l + 1);
  }

  lemma PlacesDiffer(lens: seq<codelen>, t: nat, s: nat)
    requires t < s < |lens| && lens[t] > 0 && lens[s] > 0
    ensures Place(lens, t) != Place(lens, s)
  {
    hide Index;
    var lt: nat, ls: nat := lens[t], lens[s];
    PlaceInSpan(lens, t, lt);
    PlaceInSpan(lens, s, ls);
    if lt == ls {
      CountInStep(lens, t, s, ls);
    } else if lt < ls {
      IndexMonotone(lens, lt + 1, ls);
    } else {
      IndexMonotone(lens, ls + 1, lt);
    }
  }

  /** The place of symbol `s` is in the table, and no symbol before it is there. */
  lemma PlaceIsFree(lens: seq<codelen>, s: nat)
    requires s < |lens| && lens[s] > 0
    ensures Place(lens, s) < |lens|
    ensures forall t :: 0 <= t < s && lens[t] > 0 ==> Place(lens, t) != Place(lens, s)
  {
    PlaceInSpan(lens, s, lens[s]);
    forall t | 0 <= t < s && lens[t] > 0 ensures Place(lens, t) != Place(lens, s) {
      PlacesDiffer(lens, t, s);
    }
  }

  /** `state_t`: what is read, what is buffered, and what is written. */
  class State {
    const input: seq<byte>
    const out: array<byte>
    var inPos: nat
    var bitBuffer: nat
    var bitCount: nat
    var outPos: nat

    constructor (input: seq<byte>, out: array<byte>)
      ensures Valid() && Settled() && this.input == input && this.out == out
      ensures At() == 0 && outPos == 0
    {
      this.input, this.out := input, out;
      inPos, bitBuffer, bitCount, outPos := 0, 0, 0, 0;
    }

    ghost function Stream(): (r: seq<bit>)
      ensures |r| == 8 * |input|
    {
      Unpack(input)
    }

    /** The bits taken so far: the bytes loaded less the bits still buffered. */
    ghost function At(): nat
      requires bitCount <= 8 * inPos
      reads this
    {
      8 * inPos - bitCount
    }

    ghost predicate Valid()
      reads this
    {
      && inPos <= |input| && bitCount <= 8 * inPos && bitCount <= 20 && outPos <= out.Length
      && bitBuffer == Value(Stream(), At(), bitCount)
    }

    /** No whole byte is buffered, so `stored` and the trailer find their bytes at `inPos`. */
    ghost predicate Settled()
      reads this
    {
      bitCount <= 7
    }

    ghost function Written(): seq<byte>
      requires outPos <= out.Length
      reads this, out
    {
      out[..outPos]
    }

    /** Loads one byte above the buffered bits. The shift and the buffer stay within 32 bits. */
    method LoadByte()
      requires Valid() && bitCount < 13 && inPos < |input|
      modifies this`inPos, this`bitBuffer, this`bitCount
      ensures Valid() && At() == old(At()) && inPos == old(inPos) + 1 && bitCount == old(bitCount) + 8
      ensures Shl(input[old(inPos)], old(bitCount)) <= bitBuffer < 0x1_0000_0000
    {
      hide Unpack, Value, Shl;
      ByteValue(input, inPos);
      ValueJoin(Stream(), At(), bitCount + 8, bitCount);
      FewBitsFit(Stream(), At(), bitCount + 8);
      bitBuffer := bitBuffer + Shl(input[inPos], bitCount);
      inPos := inPos + 1;
      bitCount := bitCount + 8;
    }

    /** `bits`: the next `need` bits, or -1 with the place unchanged when the input ends first. */
    method ReadBits(need: nat) returns (value: int)
      requires Valid() && need <= 13
      modifies this`inPos, this`bitBuffer, this`bitCount
      ensures Valid()
      ensures old(At()) + need <= 8 * |input| ==>
                At() == old(At()) + need && value == Value(Stream(), old(At()), need)
                && (old(Settled()) ==> Settled())
      ensures old(At()) + need > 8 * |input| ==> value == -1 && At() == old(At())
      ensures bitBuffer < 0x1_0000_0000
    {
      hide Unpack, Value, Mask, Shr;
      FewBitsFit(Stream(), At(), bitCount);
      while bitCount < need
        invariant Valid() && At() == old(At()) && (bitCount < need + 8 || bitCount == old(bitCount))
        invariant bitBuffer < 0x1_0000_0000
        decreases |input| - inPos
      {
        if inPos >= |input| {
          return -1;
        }
        LoadByte();
      }
      ValueCut(Stream(), At(), bitCount, need);
      value := Mask(bitBuffer, need);
      bitBuffer := Shr(bitBuffer, need);
      bitCount := bitCount - need;
      FewBitsFit(Stream(), At(), bitCount);
    }

    /** `decode`: one symbol, -1 for a code not in the table, -2 when the input ends. */
    method DecodeSymbol(h: Table, ghost lens: seq<codelen>) returns (symbol: int)
      requires Valid() && Settled() && h.Built(lens)
      modifies this`inPos, this`bitBuffer, this`bitCount
      ensures Valid()
      ensures symbol < 0 <==> Decode(Stream(), old(At()), lens) == None
      ensures symbol >= 0 ==> Settled() && Decode(Stream(), old(At()), lens) == Some((symbol, At()))
    {
      hide Decode, DecodeFrom, CodeValue, FirstCode, Index, Unpack, CountIn, Value, Table.Placed, Table.Counted;
      var code, first, index := 0, 0, 0;
      ghost var p := At();
      DecodeStart(Stream(), p, lens);
      for l := 1 to 16
        invariant Valid() && Settled() && At() == p + l - 1 && code >= first
        invariant code == 2 * CodeValue(Stream(), p, l - 1) && first == FirstCode(lens, l) && index == Index(lens, l)
        invariant Decode(Stream(), p, lens) == DecodeFrom(Stream(), p, lens, l)
      {
        var bit := ReadBits(1);
        if bit < 0 {
          DecodeEnds(Stream(), p, lens, l);
          return -2;
        }
        DecodeStep(Stream(), p, lens, l);
        code := code + bit;
        var count := h.CountAt(lens, l);
        if code - count < first {
          symbol := h.SymbolOf(lens, l, code - first, index + (code - first));
          assert Decode(Stream(), p, lens) == Some((symbol, p + l));
          return;
        }
        index, first, code := index + count, 2 * (first + count), 2 * code;
      }
      DecodeEnds(Stream(), p, lens, 16);
      return -1;
    }

    /** What the state is after `r` steps to the outcome `o` of the specification. */
    ghost predicate Reached(o: Outcome, r: Status)
      requires Valid()
      reads this, out
    {
      match o
      case Fail(DataError) => r == ErrData
      case Fail(OverflowError) => r == ErrOverflow
      case Done(end, bytes) => r == Ok && At() == end && Written() == bytes && Settled()
    }

    /** The end of a match in `codes`: its two checks, then the copy, byte by byte, so that an overlapping one
        repeats. */
    method CopyFrom(distance: nat, length: nat) returns (r: Status)
      requires Valid() && distance > 0
      modifies this`outPos, out
      ensures Valid()
      ensures r == if distance > old(outPos) then ErrData
                   else if length > out.Length - old(outPos) then ErrOverflow else Ok
      ensures Written() == if r == Ok then CopyBack(old(Written()), distance, length) else old(Written())
    {
      hide Unpack, Value, CopyBack;
      if distance > outPos {
        return ErrData;
      }
      if out.Length - outPos < length {
        return ErrOverflow;
      }
      for i := 0 to length
        invariant outPos == old(outPos)
        invariant CopyBack(old(Written()), distance, length) == CopyBack(out[..outPos + i], distance, length - i)
      {
        CopyStep(out[..outPos + i], distance, length - i);
        out[outPos + i] := out[outPos + i - distance];
        assert out[..outPos + i + 1] == out[..outPos + i] + [out[outPos + i - distance]];
      }
      CopyStep(out[..outPos + length], distance, 0);
      outPos := outPos + length;
      return Ok;
    }

    /** The length part of a match, then its distance part: `codes` from `symbol -= 257` on. */
    method ReadMatch(symbol: nat, dist: Table, ghost ll: seq<codelen>, ghost dl: seq<codelen>, ghost p: nat)
      returns (ok: bool, length: nat, distance: nat, ghost t: Token)
      requires Valid() && Settled() && dist.Built(dl) && symbol > 256
      requires Decode(Stream(), p, ll) == Some((symbol, At()))
      modifies this`inPos, this`bitBuffer, this`bitCount
      ensures Valid()
      ensures !ok ==> NextToken(Stream(), p, ll, dl) == None
      ensures ok ==> Settled() && NextToken(Stream(), p, ll, dl) == Some((t, At()))
      ensures ok ==> t.Match? && t.lengthSymbol < 29 && t.distanceSymbol < 30
      ensures ok ==> length == LengthBase(t.lengthSymbol) + t.lengthExtra
      ensures ok ==> distance == DistanceBase(t.distanceSymbol) + t.distanceExtra
    {
      hide Unpack, Value, Decode, LengthBase, LengthExtra, DistanceBase, DistanceExtra, Table.Placed, Table.Counted;
      ok, length, distance, t := false, 0, 0, EndOfBlock;
      var ls := symbol - 257;
      if ls >= 29 {
        return;
      }
      ExtrasAreSmall();
      var le := ReadBits(LengthExtra(ls));
      if le < 0 {
        return;
      }
      ghost var start := At();
      length := LengthBase(ls) + le;
      var ds := DecodeSymbol(dist, dl);
      if ds < 0 || ds >= 30 {
        return;
      }
      var de := ReadBits(DistanceExtra(ds));
      if de < 0 {
        return;
      }
      distance := DistanceBase(ds) + de;
      ok, t := true, Match(ls, le, ds, de);
    }

    /** `codes`: one block of codes, up to its end of block. */
    method RunCodes(lit: Table, dist: Table, ghost ll: seq<codelen>, ghost dl: seq<codelen>) returns (r: Status)
      requires Valid() && Settled() && lit.Built(ll) && dist.Built(dl)
      modifies this`inPos, this`bitBuffer, this`bitCount, this`outPos, out
      ensures Valid() && Reached(old(Codes(Stream(), At(), ll, dl, Written(), out.Length)), r)
    {
      hide Unpack, Value, Decode, NextDistance, CopyBack, LengthBase, LengthExtra, DistanceBase, DistanceExtra;
      hide Table.Placed, Table.Counted;
      ghost var goal := Codes(Stream(), At(), ll, dl, Written(), out.Length);
      while true
        invariant Valid() && Settled() && lit.Built(ll) && dist.Built(dl)
        invariant Codes(Stream(), At(), ll, dl, Written(), out.Length) == goal
        decreases 8 * |input| - At()
      {
        ghost var p, before := At(), Written();
        var symbol := DecodeSymbol(lit, ll);
        if symbol < 0 {
          return ErrData;
        }
        if symbol < 256 {
          if outPos >= out.Length {
            return ErrOverflow;
          }
          out[outPos] := symbol;
          outPos := outPos + 1;
          assert Written() == before + [symbol];
        } else if symbol == 256 {
          return Ok;
        } else {
          var ok, length, distance, t := ReadMatch(symbol, dist, ll, dl, p);
          if !ok {
            return ErrData;
          }
          TokenMoves(Stream(), p, ll, dl);
          r := CopyFrom(distance, length);
          if r != Ok {
            return;
          }
        }
      }
    }

    /** Drops the padding and reads LEN and NLEN from the next byte boundary. */
    method ReadStoredLength() returns (ok: bool, len: nat)
      requires Valid() && Settled()
      modifies this`inPos, this`bitBuffer, this`bitCount
      ensures Valid()
      ensures ok <==> StoredFits(Stream(), Align(old(At())))
      ensures ok ==> len == Value(Stream(), Align(old(At())), 16) && At() == Align(old(At())) + 32 && bitCount == 0
    {
      hide Unpack, Value, Word;
      AlignedPlace(inPos, bitCount);
      hide Align;
      NoBits(Stream(), 8 * inPos);
      bitBuffer, bitCount := 0, 0;
      if |input| - inPos < 4 {
        return false, 0;
      }
      TwoBytes(input, inPos);
      TwoBytes(input, inPos + 2);
      len := Word(input[inPos], input[inPos + 1]);
      var nlen := Word(input[inPos + 2], input[inPos + 3]);
      assert 8 * (inPos + 2) == 8 * inPos + 16;
      inPos := inPos + 4;
      NoBits(Stream(), 8 * inPos);
      // The one's complement of a 16-bit number is what it lacks to 0xFFFF.
      ok := len + nlen == 0xFFFF && |input| - inPos >= len;
    }

    /** `stored`: a block of bytes as they are. */
    method RunStored() returns (r: Status)
      requires Valid() && Settled()
      modifies this`inPos, this`bitBuffer, this`bitCount, this`outPos, out
      ensures Valid() && Reached(old(StoredBody(Stream(), At(), Written(), out.Length)), r)
    {
      hide Unpack, Value, BytesAt, SpellsBytes, Align;
      var ok, len := ReadStoredLength();
      if !ok {
        return ErrData;
      }
      if out.Length - outPos < len {
        return ErrOverflow;
      }
      StoredBytes(input, inPos, len);
      CopyStored(len);
      return Ok;
    }

    method CopyStored(len: nat)
      requires Valid() && bitCount == 0 && len <= |input| - inPos && len <= out.Length - outPos
      modifies this`inPos, this`outPos, out
      ensures Valid() && bitCount == 0 && inPos == old(inPos) + len
              && Written() == old(Written()) + input[old(inPos)..old(inPos) + len]
    {
      hide Unpack;
      for i := 0 to len
        invariant inPos == old(inPos) + i && outPos == old(outPos) + i
        invariant Written() == old(Written()) + input[old(inPos)..old(inPos) + i]
      {
        out[outPos] := input[inPos];
        inPos, outPos := inPos + 1, outPos + 1;
      }
    }

    /** `fixed`: the two codes of RFC 1951, section 3.2.6. */
    method RunFixed(lit: Table, dist: Table) returns (r: Status)
      requires Valid() && Settled() && Apart(lit, dist)
      modifies this`inPos, this`bitBuffer, this`bitCount, this`outPos, out
      modifies lit.count, lit.symbol, dist.count, dist.symbol
      ensures Valid()
              && Reached(old(Codes(Stream(), At(), FixedLiterals(), FixedDistances(), Written(), out.Length)), r)
    {
      hide Unpack, Value, Codes, Usable, Complete, FixedLiterals, FixedDistances, Table.Placed, Table.Counted;
      BuildFixed(lit, dist);
      r := RunCodes(lit, dist, FixedLiterals(), FixedDistances());
    }

    /** The `n` three-bit lengths of the code length alphabet, put in symbol order. */
    method ReadCodeLengths(lengths: array<codelen>, n: nat) returns (ok: bool)
      requires Valid() && Settled() && lengths.Length == 316 && n <= 19
      modifies this`inPos, this`bitBuffer, this`bitCount, lengths
      ensures Valid() && (ok <==> old(At()) + 3 * n <= 8 * |input|)
      ensures ok ==> Settled() && At() == old(At()) + 3 * n
      ensures ok ==> lengths[0..19] == CodeLengths(GivenLengths(Stream(), old(At()), n))
    {
      hide Unpack, Value;
      ghost var p := At();
      PlacesInvert();
      for index := 0 to n
        invariant Valid() && Settled() && At() == p + 3 * index
        invariant forall s :: 0 <= s < 19 && CODE_LENGTH_PLACE[s] < index ==>
                    lengths[s] == SmallLength(Stream(), p + 3 * CODE_LENGTH_PLACE[s])
      {
        var value := ReadBits(3);
        if value < 0 {
          return false;
        }
        SmallValue(Stream(), p + 3 * index, 3);
        lengths[CODE_LENGTH_ORDER[index]] := value;
      }
      ClearRest(lengths, n);
      return true;
    }

    /** One run of code lengths: the length and how often it comes. */
    method ReadRun(lit: Table, ghost cl: seq<codelen>, lengths: array<codelen>, index: nat)
      returns (ok: bool, repeat: nat, value: codelen, ghost run: Run)
      requires Valid() && Settled() && lit.Built(cl) && |cl| == 19 && index <= lengths.Length
      modifies this`inPos, this`bitBuffer, this`bitCount
      ensures Valid() && (ok ==> Settled() && NextRun(Stream(), old(At()), cl) == Some((run, At())))
      ensures ok ==> repeat > 0 && ApplyRun(lengths[..index], run) == Some(lengths[..index] + Times(repeat, value))
      ensures !ok ==> NextRun(Stream(), old(At()), cl) == None
                      || ApplyRun(lengths[..index], NextRun(Stream(), old(At()), cl).value.0) == None
    {
      hide Unpack, Value, Decode, Table.Placed, Table.Counted, Times;
      ok, repeat, value, run := false, 0, 0, One(0);
      var symbol := DecodeSymbol(lit, cl);
      if symbol < 0 {
        return;
      }
      if symbol < 16 {
        assert lengths[..index] + Times(1, symbol) == lengths[..index] + [symbol] by { TimesOne(symbol); }
        NoBits(Stream(), At());
        return true, 1, symbol, One(symbol);
      }
      if symbol == 16 && index == 0 {
        return;
      }
      var extra := ReadBits(RunBits(symbol));
      if extra < 0 {
        return;
      }
      if symbol == 16 {
        return true, extra + 3, lengths[index - 1], Repeat(extra);
      } else if symbol == 17 {
        return true, extra + 3, 0, Zeros(extra);
      }
      return true, extra + 11, 0, ManyZeros(extra);
    }

    /** All the code lengths of a dynamic block. */
    method ReadAllRuns(lit: Table, ghost cl: seq<codelen>, lengths: array<codelen>, total: nat) returns (ok: bool)
      requires Valid() && Settled() && lit.Built(cl) && |cl| == 19 && total <= lengths.Length
      modifies this`inPos, this`bitBuffer, this`bitCount, lengths
      ensures Valid()
              && (ok ==> Settled() && ReadRuns(Stream(), old(At()), cl, [], total) == Some((lengths[..total], At())))
      ensures !ok ==> ReadRuns(Stream(), old(At()), cl, [], total) == None
    {
      hide Unpack, Value, Decode, Table.Placed, Table.Counted, NextRun, ApplyRun;
      ghost var goal := ReadRuns(Stream(), At(), cl, [], total);
      var index := 0;
      assert lengths[..0] == [];
      while index < total
        invariant index <= total && Valid() && Settled() && lit.Built(cl)
        invariant ReadRuns(Stream(), At(), cl, lengths[..index], total) == goal
      {
        var more, repeat, value, run := ReadRun(lit, cl, lengths, index);
        if !more || index + repeat > total {
          return false;
        }
        FillRun(lengths, index, repeat, value);
        index := index + repeat;
      }
      return true;
    }

    /** HLIT, HDIST and HCLEN, when their numbers of codes are allowed. */
    method ReadSizes() returns (ok: bool, nlen: nat, ndist: nat, ncode: nat)
      requires Valid() && Settled()
      modifies this`inPos, this`bitBuffer, this`bitCount
      ensures Valid()
      ensures !ok ==> ReadTables(Stream(), old(At())) == None
      ensures ok ==> Settled() && At() == old(At()) + 14 <= 8 * |input|
      ensures ok ==> nlen == Value(Stream(), old(At()), 5) + 257 <= MAX_LITERAL_CODES
      ensures ok ==> ndist == Value(Stream(), old(At()) + 5, 5) + 1 <= MAX_DISTANCE_CODES
      ensures ok ==> ncode == Value(Stream(), old(At()) + 10, 4) + 4 <= 19
    {
      hide Unpack, Value, ReadRuns, Usable, Complete, CodeLengths, GivenLengths;
      ok, nlen, ndist, ncode := false, 0, 0, 0;
      var literals := ReadBits(5);
      var distances := ReadBits(5);
      var codes := ReadBits(4);
      if literals < 0 || distances < 0 || codes < 0 {
        return;
      }
      nlen, ndist, ncode := literals + 257, distances + 1, codes + 4;
      SmallValue(Stream(), At() - 4, 4);
      ok := nlen <= MAX_LITERAL_CODES && ndist <= MAX_DISTANCE_CODES;
    }

    /** The header of a dynamic block: both tables, or nothing when a rule is broken. */
    method ReadDynamicTables(lit: Table, dist: Table) returns (ok: bool, ghost ll: seq<codelen>, ghost dl: seq<codelen>)
      requires Valid() && Settled() && Apart(lit, dist)
      modifies this`inPos, this`bitBuffer, this`bitCount, lit.count, lit.symbol, dist.count, dist.symbol
      ensures Valid() && Apart(lit, dist)
      ensures ok ==> Settled() && lit.Built(ll) && dist.Built(dl)
      ensures ok ==> ReadTables(Stream(), old(At())) == Some((ll, dl, At()))
      ensures !ok ==> ReadTables(Stream(), old(At())) == None
    {
      hide Unpack, Value, Decode, Table.Placed, Table.Counted, ReadRuns, Usable, Complete, CodeLengths, GivenLengths;
      ok, ll, dl := false, [], [];
      var more, nlen, ndist, ncode := ReadSizes();
      if !more {
        return;
      }
      var lengths := new codelen[316];
      more := ReadCodeLengths(lengths, ncode);
      if !more {
        return;
      }
      ghost var cl := lengths[0..19];
      var left := lit.Construct(lengths, 0, 19);
      if left != 0 {
        return;
      }
      more := ReadAllRuns(lit, cl, lengths, nlen + ndist);
      if !more {
        return;
      }
      ll, dl := lengths[0..nlen], lengths[nlen..nlen + ndist];
      assert lengths[..nlen + ndist][..nlen] == ll && lengths[..nlen + ndist][nlen..] == dl;
      ok := BuildBoth(lit, dist, lengths, nlen, ndist);
    }

    /** One block after its three header bits. */
    method RunBlock(kind: nat, lit: Table, dist: Table) returns (r: Status)
      requires Valid() && Settled() && Apart(lit, dist)
      modifies this`inPos, this`bitBuffer, this`bitCount, this`outPos, out
      modifies lit.count, lit.symbol, dist.count, dist.symbol
      ensures Valid() && Reached(old(Body(Stream(), At(), kind, Written(), out.Length)), r)
    {
      hide Unpack, Value, Codes, StoredBody, ReadTables, FixedLiterals, FixedDistances, Table.Placed, Table.Counted;
      if kind == 0 {
        r := RunStored();
      } else if kind == 1 {
        r := RunFixed(lit, dist);
      } else if kind == 2 {
        var ok, ll, dl := ReadDynamicTables(lit, dist);
        if !ok {
          return ErrData;
        }
        r := RunCodes(lit, dist, ll, dl);
      } else {
        return ErrData;
      }
    }

    /** Every block, up to and with the one that says it is the last. */
    method RunBlocks(lit: Table, dist: Table) returns (r: Status)
      requires Valid() && Settled() && Apart(lit, dist)
      modifies this`inPos, this`bitBuffer, this`bitCount, this`outPos, out
      modifies lit.count, lit.symbol, dist.count, dist.symbol
      ensures Valid() && Reached(old(Blocks(Stream(), At(), Written(), out.Length)), r)
    {
      hide Unpack, Value, Body, Table.Placed, Table.Counted;
      ghost var goal := Blocks(Stream(), At(), Written(), out.Length);
      while true
        invariant Valid() && Settled() && Apart(lit, dist)
        invariant Blocks(Stream(), At(), Written(), out.Length) == goal
        decreases 8 * |input| - At()
      {
        var last := ReadBits(1);
        var kind := ReadBits(2);
        if last < 0 || kind < 0 {
          return ErrData;
        }
        BodyEnd(Stream(), At(), kind, Written(), out.Length);
        r := RunBlock(kind, lit, dist);
        if r != Ok || last == 1 {
          return;
        }
      }
    }
  }

  /** Zero for the code length symbols whose length is not sent. */
  method ClearRest(lengths: array<codelen>, n: nat)
    requires lengths.Length == 316 && n <= 19
    modifies lengths
    ensures forall s :: 0 <= s < 19 ==> lengths[s] == if CODE_LENGTH_PLACE[s] < n then old(lengths[s]) else 0
  {
    PlacesInvert();
    for index := n to 19
      invariant forall s :: 0 <= s < 19 ==>
                  lengths[s] == if n <= CODE_LENGTH_PLACE[s] < index then 0 else old(lengths[s])
    {
      lengths[CODE_LENGTH_ORDER[index]] := 0;
    }
  }

  method FillRun(lengths: array<codelen>, index: nat, repeat: nat, value: codelen)
    requires index + repeat <= lengths.Length
    modifies lengths
    ensures lengths[..index + repeat] == old(lengths[..index]) + Times(repeat, value)
  {
    for k := 0 to repeat
      invariant lengths[..index + k] == old(lengths[..index]) + Times(k, value)
    {
      lengths[index + k] := value;
    }
  }

  lemma TimesOne(v: codelen)
    ensures Times(1, v) == [v]
  {
  }

  /** CODE_LENGTH_PLACE inverts CODE_LENGTH_ORDER. */
  lemma PlacesInvert()
    ensures |CODE_LENGTH_ORDER| == 19 && |CODE_LENGTH_PLACE| == 19
    ensures forall i :: 0 <= i < 19 ==> CODE_LENGTH_ORDER[i] < 19 && CODE_LENGTH_PLACE[CODE_LENGTH_ORDER[i]] == i
    ensures forall s :: 0 <= s < 19 ==> CODE_LENGTH_PLACE[s] < 19 && CODE_LENGTH_ORDER[CODE_LENGTH_PLACE[s]] == s
    ensures CODE_LENGTH_ORDER[..4] == [16, 17, 18, 0]
    ensures forall k :: 0 <= k < 8 ==> CODE_LENGTH_ORDER[4 + 2 * k] == 8 + k
    ensures forall k :: 0 <= k < 7 ==> CODE_LENGTH_ORDER[5 + 2 * k] == 7 - k
  {
  }

  /** The tables share no array, so that building one leaves the other. */
  ghost predicate Apart(lit: Table, dist: Table) {
    lit.Sized() && dist.Sized() && lit.count != dist.count && lit.symbol != dist.symbol
  }

  /** The tables of a dynamic block: there must be an end of block, and both codes must be usable. */
  method BuildBoth(lit: Table, dist: Table, lengths: array<codelen>, nlen: nat, ndist: nat) returns (ok: bool)
    requires Apart(lit, dist) && lengths.Length == 316 && 256 < nlen <= 286 && ndist <= 30
    modifies lit.count, lit.symbol, dist.count, dist.symbol
    ensures var ll, dl := lengths[0..nlen], lengths[nlen..nlen + ndist];
            && (ok <==> ll[256] != 0 && Usable(ll) && Usable(dl))
            && (ok ==> lit.Built(ll) && dist.Built(dl))
  {
    hide Usable, Complete, Table.Placed, Table.Counted;
    ok := false;
    if lengths[256] == 0 {
      return;
    }
    var n: int := nlen;
    var left := lit.Construct(lengths, 0, nlen);
    if left < 0 || (left > 0 && n - lit.count[0] != 1) {
      return;
    }
    n := ndist;
    left := dist.Construct(lengths, nlen, ndist);
    if left < 0 || (left > 0 && n - dist.count[0] != 1) {
      return;
    }
    ok := true;
  }

  method BuildFixed(lit: Table, dist: Table)
    requires Apart(lit, dist)
    modifies lit.count, lit.symbol, dist.count, dist.symbol
    ensures lit.Built(FixedLiterals()) && dist.Built(FixedDistances())
  {
    hide Usable, Complete, FixedLiterals, Table.Placed, Table.Counted;
    FixedCodesFit();
    var lengths := new codelen[288];
    FillFixed(lengths);
    var left := lit.Construct(lengths, 0, 288);
    FillFive(lengths);
    left := dist.Construct(lengths, 0, 30);
  }

  method FillFive(lengths: array<codelen>)
    requires lengths.Length == 288
    modifies lengths
    ensures lengths[0..30] == FixedDistances()
  {
    for s := 0 to 30
      invariant forall k :: 0 <= k < s ==> lengths[k] == 5
    {
      lengths[s] := 5;
    }
  }

  method FillFixed(lengths: array<codelen>)
    requires lengths.Length == 288
    modifies lengths
    ensures lengths[0..288] == FixedLiterals()
  {
    var s := 0;
    while s < 144
      invariant s <= 144 && forall k :: 0 <= k < s ==> lengths[k] == 8
    {
      lengths[s], s := 8, s + 1;
    }
    while s < 256
      invariant 144 <= s <= 256 && forall k :: 0 <= k < s ==> lengths[k] == if k < 144 then 8 else 9
    {
      lengths[s], s := 9, s + 1;
    }
    while s < 280
      invariant 256 <= s <= 280
      invariant forall k :: 0 <= k < s ==> lengths[k] == if k < 144 then 8 else if k < 256 then 9 else 7
    {
      lengths[s], s := 7, s + 1;
    }
    while s < 288
      invariant 280 <= s <= 288
      invariant forall k :: 0 <= k < s ==>
                  lengths[k] == if k < 144 then 8 else if k < 256 then 9 else if k < 280 then 7 else 8
    {
      lengths[s], s := 8, s + 1;
    }
  }

  lemma {:induction false} CountJoined(a: seq<codelen>, b: seq<codelen>, n: nat, l: nat)
    requires n <= |b|
    ensures CountIn(a + b, |a| + n, l) == Count(a, l) + CountIn(b, n, l)
    decreases n
  {
    if n == 0 {
      CountPrefix(a, b, |a|, l);
    } else {
      CountJoined(a, b, n - 1, l);
    }
  }

  lemma {:induction false} CountPrefix(a: seq<codelen>, b: seq<codelen>, n: nat, l: nat)
    requires n <= |a|
    ensures CountIn(a + b, n, l) == CountIn(a, n, l)
  {
    if n > 0 {
      CountPrefix(a, b, n - 1, l);
    }
  }

  lemma {:induction false} CountTimes(n: nat, k: nat, v: codelen, l: nat)
    requires k <= n
    ensures CountIn(Times(n, v), k, l) == if l == v then k else 0
    decreases k
  {
    if k > 0 {
      CountTimes(n, k - 1, v, l);
    }
  }

  lemma FixedCounts(l: nat)
    ensures Count(FixedLiterals(), l) == if l == 7 then 24 else if l == 8 then 152 else if l == 9 then 112 else 0
    ensures Count(FixedDistances(), l) == if l == 5 then 30 else 0
  {
    var a, b, c, d := Times(144, 8), Times(112, 9), Times(24, 7), Times(8, 8);
    CountTimes(144, 144, 8, l);
    CountTimes(112, 112, 9, l);
    CountTimes(24, 24, 7, l);
    CountTimes(8, 8, 8, l);
    CountJoined(a, b, 112, l);
    CountJoined(a + b, c, 24, l);
    CountJoined(a + b + c, d, 8, l);
    CountTimes(MAX_DISTANCE_CODES, MAX_DISTANCE_CODES, 5, l);
  }

  lemma {:induction false} FixedLeft(l: nat)
    requires l <= MAX_BITS
    ensures NoNegative(FixedLiterals(), l) && NoNegative(FixedDistances(), l)
    ensures Left(FixedLiterals(), l) == if l < 7 then Pow2(l) else if l == 7 then 104 else if l == 8 then 56 else 0
    ensures l >= 5 ==> Left(FixedDistances(), l) == 2 * Pow2(l - 5)
    ensures l < 5 ==> Left(FixedDistances(), l) == Pow2(l)
  {
    hide FixedLiterals, FixedDistances, CountIn;
    if l > 0 {
      FixedLeft(l - 1);
      FixedCounts(l);
      if l == 5 || l == 7 {
        assert Pow2(2) == 4 && Pow2(4) == 16 && Pow2(6) == 64;
      }
    }
  }

  /** The fixed codes are not over-subscribed, so `fixed` may ignore what `construct` returns. */
  lemma FixedCodesFit()
    ensures NoNegative(FixedLiterals(), MAX_BITS) && Usable(FixedLiterals())
    ensures NoNegative(FixedDistances(), MAX_BITS)
  {
    FixedLeft(MAX_BITS);
  }

  /** The fixed codes, as the table of RFC 1951, section 3.2.6 lists them. */
  lemma FixedCode(s: nat)
    requires s < 288
    ensures var (bits, code) := (FixedLiterals()[s], Code(FixedLiterals(), s));
            if s < 144 then (bits, code) == (8, 0x30 + s)
            else if s < 256 then (bits, code) == (9, 0x190 + (s - 144))
            else if s < 280 then (bits, code) == (7, s - 256)
            else (bits, code) == (8, 0xC0 + (s - 280))
    ensures s < 30 ==> FixedDistances()[s] == 5 && Code(FixedDistances(), s) == s
  {
    hide CountIn;
    FixedFirst();
    FixedRank(s);
  }

  lemma FixedFirst()
    ensures FirstCode(FixedLiterals(), 7) == 0 && FirstCode(FixedLiterals(), 8) == 48
    ensures FirstCode(FixedLiterals(), 9) == 400 && FirstCode(FixedDistances(), 5) == 0
  {
    hide FixedLiterals, FixedDistances, CountIn;
    var ll, dl := FixedLiterals(), FixedDistances();
    forall l ensures Count(ll, l) == if l == 7 then 24 else if l == 8 then 152 else if l == 9 then 112 else 0 {
      FixedCounts(l);
    }
    forall l ensures Count(dl, l) == if l == 5 then 30 else 0 {
      FixedCounts(l);
    }
    assert FirstCode(ll, 3) == 0 && FirstCode(ll, 5) == 0 && FirstCode(dl, 3) == 0;
  }

  /** How many symbols of its length come before `s` in the fixed codes. */
  lemma FixedRank(s: nat)
    requires s < 288
    ensures CountIn(FixedLiterals(), s, FixedLiterals()[s]) ==
            if s < 144 then s else if s < 256 then s - 144 else if s < 280 then s - 256 else s - 136
    ensures s < 30 ==> CountIn(FixedDistances(), s, 5) == s
  {
    hide CountIn;
    var a, b, c, d := Times(144, 8), Times(112, 9), Times(24, 7), Times(8, 8);
    var l := FixedLiterals()[s];
    if s < 144 {
      CountTimes(144, s, 8, l);
      CountPrefix(a, b, s, l);
      CountPrefix(a + b, c, s, l);
      CountPrefix(a + b + c, d, s, l);
    } else if s < 256 {
      CountTimes(112, s - 144, 9, l);
      CountTimes(144, 144, 8, l);
      CountJoined(a, b, s - 144, l);
      CountPrefix(a + b, c, s, l);
      CountPrefix(a + b + c, d, s, l);
    } else {
      CountTimes(144, 144, 8, l);
      CountTimes(112, 112, 9, l);
      CountJoined(a, b, 112, l);
      if s < 280 {
        CountTimes(24, s - 256, 7, l);
        CountJoined(a + b, c, s - 256, l);
        CountPrefix(a + b + c, d, s, l);
      } else {
        CountTimes(24, 24, 7, l);
        CountTimes(8, s - 280, 8, l);
        CountJoined(a + b, c, 24, l);
        CountJoined(a + b + c, d, s - 280, l);
      }
    }
    if s < 30 {
      CountTimes(MAX_DISTANCE_CODES, s, 5, 5);
    }
  }

  lemma NoBits(bits: seq<bit>, p: nat)
    requires p <= |bits|
    ensures Value(bits, p, 0) == 0
  {
  }

  lemma AlignedPlace(loaded: nat, buffered: nat)
    requires buffered <= 7 && buffered <= 8 * loaded
    ensures Align(8 * loaded - buffered) == 8 * loaded
  {
  }

  /** Two bytes as a number, the low byte first. */
  function Word(low: nat, high: nat): nat { low + 256 * high }

  lemma ShlEight(x: nat)
    ensures Shl(x, 8) == 256 * x
  {
    assert Shl(x, 1) == 2 * x && Shl(x, 2) == 4 * x && Shl(x, 3) == 8 * x && Shl(x, 4) == 16 * x;
    assert Shl(x, 5) == 32 * x && Shl(x, 6) == 64 * x && Shl(x, 7) == 128 * x;
  }

  lemma TwoBytes(data: seq<byte>, i: nat)
    requires i + 2 <= |data|
    ensures Value(Unpack(data), 8 * i, 16) == Word(data[i], data[i + 1])
  {
    hide Unpack, Value;
    ByteValue(data, i);
    ByteValue(data, i + 1);
    ValueJoin(Unpack(data), 8 * i, 16, 8);
    ShlEight(data[i + 1]);
  }

  lemma StoredBytes(data: seq<byte>, i: nat, n: nat)
    requires i + n <= |data|
    ensures BytesAt(Unpack(data), 8 * i, n) == data[i..i + n]
  {
    hide Unpack, Value;
    forall k | 0 <= k < n ensures BytesAt(Unpack(data), 8 * i, n)[k] == data[i + k] {
      ByteValue(data, i + k);
      assert 8 * (i + k) == 8 * i + 8 * k;
    }
  }

  lemma CopyStep(out: seq<byte>, distance: nat, length: nat)
    requires 0 < distance <= |out|
    ensures CopyBack(out, distance, 0) == out
    ensures length > 0 ==>
              CopyBack(out, distance, length) == CopyBack(out + [out[|out| - distance]], distance, length - 1)
  {
  }

  lemma ExtrasAreSmall()
    ensures forall i :: 0 <= i < 29 ==> LengthExtra(i) <= 13
    ensures forall i :: 0 <= i < 30 ==> DistanceExtra(i) <= 13
  {
  }

  lemma DecodeStart(bits: seq<bit>, p: nat, lens: seq<codelen>)
    requires p <= |bits|
    ensures CodeValue(bits, p, 0) == 0 && FirstCode(lens, 1) == 0 && Index(lens, 1) == 0
    ensures Decode(bits, p, lens) == DecodeFrom(bits, p, lens, 1)
  {
  }

  lemma DecodeEnds(bits: seq<bit>, p: nat, lens: seq<codelen>, l: nat)
    requires l > 0 && (p + l > |bits| || l > MAX_BITS)
    ensures DecodeFrom(bits, p, lens, l) == None
  {
  }

  /** One turn of `decode`, for a code of `l` bits so far. */
  lemma DecodeStep(bits: seq<bit>, p: nat, lens: seq<codelen>, l: nat)
    requires 0 < l <= MAX_BITS && p + l <= |bits|
    ensures CodeValue(bits, p, l) == 2 * CodeValue(bits, p, l - 1) + Value(bits, p + l - 1, 1)
    ensures Index(lens, l + 1) == Index(lens, l) + Count(lens, l)
    ensures FirstCode(lens, l + 1) == 2 * (FirstCode(lens, l) + Count(lens, l))
    ensures var r := CodeValue(bits, p, l) - FirstCode(lens, l);
            if 0 <= r < Count(lens, l) then DecodeFrom(bits, p, lens, l) == Some((NthIn(lens, |lens|, l, r), p + l))
            else DecodeFrom(bits, p, lens, l) == DecodeFrom(bits, p, lens, l + 1)
  {
  }

  lemma FewBitsFit(bits: seq<bit>, p: nat, n: nat)
    requires p + n <= |bits| && n <= 20
    ensures Value(bits, p, n) < 0x1_0000_0000
  {
    ValueBound(bits, p, n);
    MorePatterns(n, 20);
    assert Pow2(5) == 32 && Pow2(10) == 1024 && Pow2(15) == 32768 && Pow2(20) == 1048576;
  }

  // ---- The zlib wrapper ----

  /** RFC 1950, section 2.2: method 8, a window of at most 32 KB, no dictionary, and the check bits. */
  predicate GoodHeader(cmf: nat, flg: nat) {
    cmf % 16 == 8 && cmf / 16 <= 7 && (256 * cmf + flg) % 31 == 0 && (flg / 32) % 2 == 0
  }

  function BigEndian(b: seq<byte>): nat
    requires |b| == 4
  {
    0x100_0000 * (b[0] as nat) + 0x1_0000 * (b[1] as nat) + 0x100 * (b[2] as nat) + b[3]
  }

  /** The four bytes after the last block, in bits up to `end`, are the checksum of `o`. */
  ghost predicate GoodTrailer(data: seq<byte>, end: nat, o: seq<byte>) {
    var at := Align(end) / 8;
    at + 4 <= |data| && BigEndian(data[at..at + 4]) == Adler32.Checksum(o)
  }

  /** `input` is a zlib stream of `blocks`, which expand to `o`; bytes may follow the checksum. */
  ghost predicate ZlibStream(input: seq<byte>, blocks: seq<Block>, o: seq<byte>) {
    && |input| >= 6 && GoodHeader(input[0], input[1])
    && exists end :: SpellsBlocks(Unpack(input[2..]), 0, blocks, end) && Expand(blocks, []) == Some(o)
                     && GoodTrailer(input[2..], end, o)
  }

  /** `input` expands to `o`, which fits `cap` bytes. */
  ghost predicate Inflates(input: seq<byte>, cap: nat, o: seq<byte>) {
    |o| <= cap && exists blocks :: ZlibStream(input, blocks, o)
  }

  /** What the decoder finds decides what the stream can be. */
  lemma InflatesIff(input: seq<byte>, cap: nat, o: seq<byte>)
    requires |input| >= 6 && GoodHeader(input[0], input[1])
    ensures Inflates(input, cap, o) <==>
            var r := Blocks(Unpack(input[2..]), 0, [], cap); r.Done? && r.out == o && GoodTrailer(input[2..], r.end, o)
  {
    hide Unpack, Blocks, SpellsBlocks, GoodTrailer, Expand;
    var bits := Unpack(input[2..]);
    var r := Blocks(bits, 0, [], cap);
    if Inflates(input, cap, o) {
      var blocks :| ZlibStream(input, blocks, o);
      var end :| SpellsBlocks(bits, 0, blocks, end) && Expand(blocks, []) == Some(o) && GoodTrailer(input[2..], end, o);
      BlocksComplete(bits, 0, blocks, end, [], cap);
    }
    if r.Done? && r.out == o && GoodTrailer(input[2..], r.end, o) {
      var blocks := BlocksSound(bits, 0, [], cap);
      assert ZlibStream(input, blocks, o);
    }
  }

  /** A stream has one expansion. */
  lemma InflatesOnce(input: seq<byte>, cap: nat, o: seq<byte>, o': seq<byte>)
    requires Inflates(input, cap, o) && Inflates(input, cap, o')
    ensures o == o'
  {
    InflatesIff(input, cap, o);
    InflatesIff(input, cap, o');
  }

  lemma InflatesToNothingElse(input: seq<byte>, cap: nat)
    requires |input| >= 6 && GoodHeader(input[0], input[1])
    ensures var r := Blocks(Unpack(input[2..]), 0, [], cap);
            forall o :: Inflates(input, cap, o) <==> r.Done? && r.out == o && GoodTrailer(input[2..], r.end, o)
  {
    forall o ensures var r := Blocks(Unpack(input[2..]), 0, [], cap);
                     Inflates(input, cap, o) <==> r.Done? && r.out == o && GoodTrailer(input[2..], r.end, o)
    {
      InflatesIff(input, cap, o);
    }
  }

  /** No whole byte is buffered at the end, so the trailer starts at the byte that is next. */
  method CheckTrailer(s: State) returns (good: bool)
    requires s.Valid() && s.Settled()
    ensures good <==> GoodTrailer(s.input, s.At(), s.Written())
  {
    hide Unpack, Value, BigEndian, Adler32.Checksum;
    var consumed := s.inPos - s.bitCount / 8;
    AlignedPlace(s.inPos, s.bitCount);
    if |s.input| - consumed < 4 {
      return false;
    }
    var sum := Adler32.Compute(s.out, s.outPos);
    good := sum as int == BigEndian(s.input[consumed..consumed + 4]);
  }

  /** `glyphcore_inflate_zlib`: Ok exactly for a stream whose expansion fits, and then that expansion. */
  method Inflate(input: seq<byte>, out: array<byte>) returns (r: Status, outLen: nat)
    modifies out
    ensures outLen <= out.Length
    ensures r == Ok ==> Inflates(input, out.Length, out[..outLen])
    ensures r != Ok ==> outLen == 0 && forall o :: !Inflates(input, out.Length, o)
    ensures r == ErrHeader <==> |input| < 6 || !GoodHeader(input[0], input[1])
  {
    outLen := 0;
    if |input| < 6 || !GoodHeader(input[0], input[1]) {
      return ErrHeader, 0;
    }
    hide Unpack, Blocks, Value, Table.Placed, Table.Counted, GoodHeader, GoodTrailer, Inflates;
    InflatesToNothingElse(input, out.Length);
    var lit := new Table();
    var dist := new Table();
    var s := new State(input[2..], out);
    assert s.Written() == [];
    r := s.RunBlocks(lit, dist);
    if r != Ok {
      return;
    }
    var good := CheckTrailer(s);
    if !good {
      return ErrChecksum, 0;
    }
    outLen := s.outPos;
  }
}
