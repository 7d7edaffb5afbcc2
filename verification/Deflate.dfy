// RFC 1951 twice over: a grammar that says which bits spell which blocks and what blocks expand to,
// and a decoder on bit positions with the checks, and the order of checks, of
// tools/usermod/glyphcore/inflate.c. The lemmas prove that they agree.
module Deflate {
  import opened Bits
  import opened Huffman

  const LENGTH_BASE: seq<nat> := [3, 4, 5, 6, 7, 8, 9, 10, 11, 13, 15, 17, 19, 23, 27, 31,
                                  35, 43, 51, 59, 67, 83, 99, 115, 131, 163, 195, 227, 258]
  const LENGTH_EXTRA: seq<nat> := [0, 0, 0, 0, 0, 0, 0, 0, 1, 1, 1, 1, 2, 2, 2, 2,
                                   3, 3, 3, 3, 4, 4, 4, 4, 5, 5, 5, 5, 0]
  const DISTANCE_BASE: seq<nat> := [1, 2, 3, 4, 5, 7, 9, 13, 17, 25, 33, 49, 65, 97, 129, 193,
                                    257, 385, 513, 769, 1025, 1537, 2049, 3073, 4097, 6145,
                                    8193, 12289, 16385, 24577]
  const DISTANCE_EXTRA: seq<nat> := [0, 0, 0, 0, 1, 1, 2, 2, 3, 3, 4, 4, 5, 5, 6, 6,
                                     7, 7, 8, 8, 9, 9, 10, 10, 11, 11, 12, 12, 13, 13]
  function LengthBase(symbol: nat): nat requires symbol < 29 { LENGTH_BASE[symbol] }
  function LengthExtra(symbol: nat): nat requires symbol < 29 { LENGTH_EXTRA[symbol] }
  function DistanceBase(symbol: nat): (r: nat) requires symbol < 30 ensures r > 0 { DISTANCE_BASE[symbol] }
  function DistanceExtra(symbol: nat): nat requires symbol < 30 { DISTANCE_EXTRA[symbol] }

  const CODE_LENGTH_ORDER: seq<nat> := [16, 17, 18, 0, 8, 7, 9, 6, 10, 5, 11, 4, 12, 3, 13, 2, 14, 1, 15]
  // The place of each code length symbol in CODE_LENGTH_ORDER.
  const CODE_LENGTH_PLACE: seq<nat> := [3, 17, 15, 13, 11, 9, 7, 5, 4, 6, 8, 10, 12, 14, 16, 18, 0, 1, 2]

  const MAX_LITERAL_CODES := 286
  const MAX_DISTANCE_CODES := 30
  const FIXED_LITERAL_CODES := 288

  // ---- The grammar ----

  datatype Token =
    | Literal(value: byte)
    | Match(lengthSymbol: nat, lengthExtra: nat, distanceSymbol: nat, distanceExtra: nat)
    | EndOfBlock

  /** One run of code lengths, section 3.2.7. */
  datatype Run = One(length: codelen) | Repeat(extra: nat) | Zeros(extra: nat) | ManyZeros(extra: nat)

  datatype Block =
    | Stored(data: seq<byte>)
    | Fixed(tokens: seq<Token>)
    | Dynamic(literals: nat, distances: nat, codeLengths: seq<codelen>, runs: seq<Run>, tokens: seq<Token>)

  ghost predicate SpellsNumber(bits: seq<bit>, p: nat, n: nat, v: nat) {
    p + n <= |bits| && Value(bits, p, n) == v
  }

  /** The place after the length part of a match. */
  function LengthEnd(p: nat, ll: seq<codelen>, t: Token): nat
    requires t.Match? && 257 + t.lengthSymbol < |ll| && t.lengthSymbol < 29
  {
    p + ll[257 + t.lengthSymbol] + LengthExtra(t.lengthSymbol)
  }

  ghost predicate SpellsLength(bits: seq<bit>, p: nat, ll: seq<codelen>, t: Token)
    requires t.Match?
  {
    && t.lengthSymbol < 29 && Spells(bits, p, ll, 257 + t.lengthSymbol)
    && SpellsNumber(bits, p + ll[257 + t.lengthSymbol], LengthExtra(t.lengthSymbol), t.lengthExtra)
  }

  ghost predicate SpellsDistance(bits: seq<bit>, p: nat, dl: seq<codelen>, t: Token)
    requires t.Match?
  {
    && t.distanceSymbol < 30 && Spells(bits, p, dl, t.distanceSymbol)
    && SpellsNumber(bits, p + dl[t.distanceSymbol], DistanceExtra(t.distanceSymbol), t.distanceExtra)
  }

  ghost predicate SpellsToken(bits: seq<bit>, p: nat, ll: seq<codelen>, dl: seq<codelen>, t: Token) {
    match t
    case Literal(b) => Spells(bits, p, ll, b)
    case Match(_, _, _, _) => SpellsLength(bits, p, ll, t) && SpellsDistance(bits, LengthEnd(p, ll, t), dl, t)
    case EndOfBlock => Spells(bits, p, ll, 256)
  }

  ghost function TokenEnd(bits: seq<bit>, p: nat, ll: seq<codelen>, dl: seq<codelen>, t: Token): nat
    requires SpellsToken(bits, p, ll, dl, t)
  {
    match t
    case Literal(b) => p + ll[b]
    case Match(_, _, ds, _) => LengthEnd(p, ll, t) + dl[ds] + DistanceExtra(ds)
    case EndOfBlock => p + ll[256]
  }

  /** The bits from `p` to `end` are `tokens`, and the last one, and no other, is the end of block. */
  ghost predicate SpellsTokens(bits: seq<bit>, p: nat, ll: seq<codelen>, dl: seq<codelen>, tokens: seq<Token>, end: nat)
    decreases |tokens|
  {
    && tokens != [] && SpellsToken(bits, p, ll, dl, tokens[0])
    && var q := TokenEnd(bits, p, ll, dl, tokens[0]);
       if tokens[0].EndOfBlock? then |tokens| == 1 && end == q
       else SpellsTokens(bits, q, ll, dl, tokens[1..], end)
  }

  function RunSymbol(r: Run): nat {
    match r case One(l) => l case Repeat(_) => 16 case Zeros(_) => 17 case ManyZeros(_) => 18
  }

  function RunBits(symbol: nat): nat {
    if symbol < 16 then 0 else if symbol == 16 then 2 else if symbol == 17 then 3 else 7
  }

  function RunExtra(r: Run): nat {
    match r case One(_) => 0 case Repeat(e) => e case Zeros(e) => e case ManyZeros(e) => e
  }

  ghost predicate SpellsRun(bits: seq<bit>, p: nat, cl: seq<codelen>, r: Run) {
    && Spells(bits, p, cl, RunSymbol(r))
    && SpellsNumber(bits, p + cl[RunSymbol(r)], RunBits(RunSymbol(r)), RunExtra(r))
  }

  function RunEnd(p: nat, cl: seq<codelen>, r: Run): nat
    requires RunSymbol(r) < |cl|
  {
    p + cl[RunSymbol(r)] + RunBits(RunSymbol(r))
  }

  function Times(n: nat, v: codelen): (r: seq<codelen>)
    ensures |r| == n && forall i :: 0 <= i < n ==> r[i] == v
  {
    seq(n, _ => v)
  }

  /** The code lengths after one more run, or nothing when a repeat has no length to repeat. */
  function ApplyRun(lens: seq<codelen>, r: Run): Option<seq<codelen>> {
    match r
    case One(l) => Some(lens + [l])
    case Repeat(e) => if lens == [] then None else Some(lens + Times(e + 3, lens[|lens| - 1]))
    case Zeros(e) => Some(lens + Times(e + 3, 0))
    case ManyZeros(e) => Some(lens + Times(e + 11, 0))
  }

  /** From `before`, the runs at `p` give exactly `total` code lengths and end at `end`. */
  ghost predicate SpellsRuns(bits: seq<bit>, p: nat, cl: seq<codelen>, runs: seq<Run>, before: seq<codelen>,
                             total: nat, lens: seq<codelen>, end: nat)
    decreases |runs|
  {
    if runs == [] then |before| == total && lens == before && end == p
    else
      && |before| < total && SpellsRun(bits, p, cl, runs[0])
      && var next := ApplyRun(before, runs[0]);
         next.Some? && SpellsRuns(bits, RunEnd(p, cl, runs[0]), cl, runs[1..], next.value, total, lens, end)
  }

  /** The code lengths of the code length alphabet, which come in CODE_LENGTH_ORDER. */
  function CodeLengths(given: seq<codelen>): (r: seq<codelen>)
    ensures |r| == 19
  {
    seq(19, s requires 0 <= s < 19 => if CODE_LENGTH_PLACE[s] < |given| then given[CODE_LENGTH_PLACE[s]] else 0)
  }

  /** The code uses every bit pattern, or has no code at all. */
  predicate Complete(lens: seq<codelen>) {
    Count(lens, 0) == |lens| || (NoNegative(lens, MAX_BITS) && Left(lens, MAX_BITS) == 0)
  }

  /** Complete, or a single code of any length. */
  predicate Usable(lens: seq<codelen>) {
    Complete(lens) || (NoNegative(lens, MAX_BITS) && |lens| - Count(lens, 0) == 1)
  }

  predicate NoNegative(lens: seq<codelen>, l: nat) {
    Left(lens, l) >= 0 && (l == 0 || NoNegative(lens, l - 1))
  }

  /** What the codes of the first `n` symbols of at most `l` bits take of the 2 to the 15 patterns of 15 bits. */
  function Taken(lens: seq<codelen>, n: nat, l: nat): nat
    requires n <= |lens|
  {
    if n == 0 then 0
    else Taken(lens, n - 1, l) + if 0 < lens[n - 1] <= l then Pow2(MAX_BITS - lens[n - 1]) else 0
  }

  lemma AddFactors(count: nat, more: nat, power: nat)
    ensures (count + more) * power == count * power + more * power
  {
  }

  lemma {:induction false} TakenStep(lens: seq<codelen>, n: nat, l: nat)
    requires n <= |lens| && 0 < l <= MAX_BITS
    ensures Taken(lens, n, l) == Taken(lens, n, l - 1) + CountIn(lens, n, l) * Pow2(MAX_BITS - l)
  {
    hide Pow2;
    if n > 0 {
      TakenStep(lens, n - 1, l);
      AddFactors(CountIn(lens, n - 1, l), if lens[n - 1] == l then 1 else 0, Pow2(MAX_BITS - l));
    }
  }

  lemma {:induction false} NoneTaken(lens: seq<codelen>, n: nat)
    requires n <= |lens|
    ensures Taken(lens, n, 0) == 0
  {
    if n > 0 {
      NoneTaken(lens, n - 1);
    }
  }

  lemma {:induction false} LeftIsNotTaken(lens: seq<codelen>, l: nat)
    requires l <= MAX_BITS
    ensures Left(lens, l) * Pow2(MAX_BITS - l) == Pow2(MAX_BITS) - Taken(lens, |lens|, l)
  {
    hide Taken, CountIn;
    if l == 0 {
      NoneTaken(lens, |lens|);
    } else {
      LeftIsNotTaken(lens, l - 1);
      TakenStep(lens, |lens|, l);
      assert Pow2(MAX_BITS - (l - 1)) == 2 * Pow2(MAX_BITS - l);
      TakeFactors(Left(lens, l - 1), Count(lens, l), Pow2(MAX_BITS - l));
    }
  }

  lemma TakeFactors(left: int, count: nat, power: nat)
    ensures (2 * left - count) * power == left * (2 * power) - count * power
  {
  }

  lemma {:induction false} TakenGrows(lens: seq<codelen>, n: nat, l: nat, m: nat)
    requires n <= |lens| && l <= m
    ensures Taken(lens, n, l) <= Taken(lens, n, m)
  {
    hide Pow2;
    if n > 0 {
      TakenGrows(lens, n - 1, l, m);
    }
  }

  lemma PositiveFactor(x: int, y: nat)
    requires y > 0
    ensures x * y >= 0 <==> x >= 0
    ensures x * y == 0 <==> x == 0
  {
  }

  lemma {:induction false} PowerIsPositive(n: nat)
    ensures Pow2(n) > 0
  {
    if n > 0 {
      PowerIsPositive(n - 1);
    }
  }

  lemma {:induction false} NoNegativeIff(lens: seq<codelen>, l: nat)
    requires l <= MAX_BITS
    ensures NoNegative(lens, l) <==> Taken(lens, |lens|, l) <= Pow2(MAX_BITS)
  {
    hide Taken, Left, Pow2;
    LeftIsNotTaken(lens, l);
    PowerIsPositive(MAX_BITS - l);
    PositiveFactor(Left(lens, l), Pow2(MAX_BITS - l));
    if l == 0 {
      NoneTaken(lens, |lens|);
    } else {
      NoNegativeIff(lens, l - 1);
      TakenGrows(lens, |lens|, l - 1, l);
    }
  }

  /** The equation of Kraft: a code that has codes is complete when they take all 2 to the 15 patterns. */
  lemma CompleteIff(lens: seq<codelen>)
    ensures Complete(lens) <==> Count(lens, 0) == |lens| || Taken(lens, |lens|, MAX_BITS) == Pow2(MAX_BITS)
    ensures NoNegative(lens, MAX_BITS) <==> Taken(lens, |lens|, MAX_BITS) <= Pow2(MAX_BITS)
  {
    hide Taken, Left, NoNegative;
    NoNegativeIff(lens, MAX_BITS);
    LeftIsNotTaken(lens, MAX_BITS);
  }

  ghost predicate OnlyCoded(lens: seq<codelen>, n: nat, s: nat) {
    s < n <= |lens| && lens[s] > 0 && forall t :: 0 <= t < n && t != s ==> lens[t] == 0
  }

  lemma {:induction false} CountUncoded(lens: seq<codelen>, n: nat)
    requires n <= |lens|
    ensures CountIn(lens, n, 0) <= n && (CountIn(lens, n, 0) == n <==> forall t :: 0 <= t < n ==> lens[t] == 0)
    ensures n - CountIn(lens, n, 0) == 1 <==> exists s: nat :: OnlyCoded(lens, n, s)
  {
    if n > 0 {
      CountUncoded(lens, n - 1);
      if n - CountIn(lens, n, 0) == 1 {
        if lens[n - 1] > 0 {
          assert OnlyCoded(lens, n, n - 1);
        } else {
          var s: nat :| OnlyCoded(lens, n - 1, s);
          assert OnlyCoded(lens, n, s);
        }
      }
      if s: nat :| OnlyCoded(lens, n, s) {
        assert s < n - 1 ==> OnlyCoded(lens, n - 1, s);
      }
    }
  }

  /** A code of a dynamic block is complete, or it has one symbol alone. */
  lemma UsableIff(lens: seq<codelen>)
    ensures Usable(lens) <==> Complete(lens) || exists s: nat :: OnlyCoded(lens, |lens|, s)
  {
    hide NoNegative, Taken, Left;
    CountUncoded(lens, |lens|);
    if s: nat :| OnlyCoded(lens, |lens|, s) {
      NoNegativeIff(lens, MAX_BITS);
      OneTakes(lens, |lens|, s);
    }
  }

  /** A single code takes at most all patterns. */
  lemma {:induction false} OneTakes(lens: seq<codelen>, n: nat, s: nat)
    requires n <= |lens| && s < |lens| && forall t :: 0 <= t < n && t != s ==> lens[t] == 0
    ensures Taken(lens, n, MAX_BITS) <= if s < n then Pow2(MAX_BITS) else 0
  {
    hide Pow2;
    if n > 0 {
      OneTakes(lens, n - 1, s);
      MorePatterns(MAX_BITS - lens[n - 1], MAX_BITS);
    }
  }

  lemma {:induction false} MorePatterns(m: nat, n: nat)
    requires m <= n
    ensures Pow2(m) <= Pow2(n)
    decreases n
  {
    if m < n {
      MorePatterns(m, n - 1);
    }
  }

  function FixedLiterals(): (r: seq<codelen>)
    ensures |r| == FIXED_LITERAL_CODES
  {
    Times(144, 8) + Times(112, 9) + Times(24, 7) + Times(8, 8)
  }

  function FixedDistances(): seq<codelen> { Times(MAX_DISTANCE_CODES, 5) }

  /** The code lengths of a dynamic block, and the place after its header. */
  ghost predicate SpellsTables(bits: seq<bit>, p: nat, b: Block, ll: seq<codelen>, dl: seq<codelen>, end: nat)
    requires b.Dynamic?
  {
    && 257 <= b.literals <= MAX_LITERAL_CODES && 1 <= b.distances <= MAX_DISTANCE_CODES
    && 4 <= |b.codeLengths| <= 19
    && SpellsNumber(bits, p, 5, b.literals - 257) && SpellsNumber(bits, p + 5, 5, b.distances - 1)
    && SpellsNumber(bits, p + 10, 4, |b.codeLengths| - 4)
    && (forall i :: 0 <= i < |b.codeLengths| ==> SpellsNumber(bits, p + 14 + 3 * i, 3, b.codeLengths[i]))
    && Complete(CodeLengths(b.codeLengths))
    && |ll| == b.literals && |dl| == b.distances && ll[256] != 0 && Usable(ll) && Usable(dl)
    && SpellsRuns(bits, p + 14 + 3 * |b.codeLengths|, CodeLengths(b.codeLengths), b.runs, [],
                  b.literals + b.distances, ll + dl, end)
  }

  /** The next byte boundary. */
  function Align(p: nat): nat { 8 * ((p + 7) / 8) }

  ghost predicate SpellsBytes(bits: seq<bit>, p: nat, data: seq<byte>) {
    p + 8 * |data| <= |bits| && forall i :: 0 <= i < |data| ==> Value(bits, p + 8 * i, 8) == data[i]
  }

  ghost predicate SpellsStored(bits: seq<bit>, p: nat, data: seq<byte>, end: nat) {
    && |data| < 0x1_0000 && SpellsNumber(bits, p, 16, |data|) && SpellsNumber(bits, p + 16, 16, 0xFFFF - |data|)
    && SpellsBytes(bits, p + 32, data) && end == p + 32 + 8 * |data|
  }

  ghost predicate SpellsBody(bits: seq<bit>, p: nat, b: Block, end: nat) {
    if b.Stored? then SpellsStored(bits, Align(p), b.data, end)
    else if b.Fixed? then SpellsTokens(bits, p, FixedLiterals(), FixedDistances(), b.tokens, end)
    else exists ll, dl, q :: SpellsTables(bits, p, b, ll, dl, q) && SpellsTokens(bits, q, ll, dl, b.tokens, end)
  }

  function BlockType(b: Block): nat {
    match b case Stored(_) => 0 case Fixed(_) => 1 case Dynamic(_, _, _, _, _) => 2
  }

  /** The bits from `p` to `end` are `blocks`; only the last one carries the final bit. */
  ghost predicate SpellsBlocks(bits: seq<bit>, p: nat, blocks: seq<Block>, end: nat)
    decreases |blocks|
  {
    && blocks != [] && SpellsNumber(bits, p, 1, if |blocks| == 1 then 1 else 0)
    && SpellsNumber(bits, p + 1, 2, BlockType(blocks[0]))
    && if |blocks| == 1 then SpellsBody(bits, p + 3, blocks[0], end)
       else exists q :: SpellsBody(bits, p + 3, blocks[0], q) && SpellsBlocks(bits, q, blocks[1..], end)
  }

  // ---- The tables of the grammar ----

  lemma SmallPowers()
    ensures Pow2(0) == 1 && Pow2(1) == 2 && Pow2(2) == 4 && Pow2(3) == 8 && Pow2(4) == 16 && Pow2(5) == 32
    ensures Pow2(6) == 64 && Pow2(7) == 128 && Pow2(8) == 256 && Pow2(9) == 512 && Pow2(10) == 1024
    ensures Pow2(11) == 2048 && Pow2(12) == 4096 && Pow2(13) == 8192
  {
  }

  /** Section 3.2.5: one length symbol carries on where the one before it ends, and the last one is 258 alone. */
  lemma LengthTable(symbol: nat)
    requires symbol < 28
    ensures LengthBase(0) == 3 && LengthBase(28) == 258 && LengthExtra(28) == 0
    ensures LengthExtra(symbol) == if symbol < 8 then 0 else symbol / 4 - 1
    ensures LengthBase(symbol) + Pow2(LengthExtra(symbol)) == if symbol == 27 then 259 else LengthBase(symbol + 1)
  {
    hide Pow2;
    SmallPowers();
  }

  lemma DistanceExtras(symbol: nat)
    requires symbol < 30
    ensures DistanceExtra(symbol) == if symbol < 4 then 0 else symbol / 2 - 1
  {
  }

  lemma DistanceTable(symbol: nat)
    requires symbol < 30
    ensures DistanceBase(0) == 1
    ensures DistanceExtra(symbol) == if symbol < 4 then 0 else symbol / 2 - 1
    ensures DistanceBase(symbol) + Pow2(DistanceExtra(symbol)) == if symbol == 29 then 32769
            else DistanceBase(symbol + 1)
  {
    hide DistanceExtra, Pow2;
    DistanceExtras(symbol);
    SmallPowers();
  }

  /** Extra bits `extra` behind `symbol` say that a match is `length` long. */
  predicate SaysLength(symbol: nat, extra: nat, length: nat) {
    symbol < 29 && extra < Pow2(LengthExtra(symbol)) && LengthBase(symbol) + extra == length
  }

  predicate SaysDistance(symbol: nat, extra: nat, distance: nat) {
    symbol < 30 && extra < Pow2(DistanceExtra(symbol)) && DistanceBase(symbol) + extra == distance
  }

  lemma {:induction false} LengthFrom(symbol: nat, length: nat) returns (s: nat, extra: nat)
    requires symbol < 28 && LengthBase(symbol) <= length <= 258
    ensures SaysLength(s, extra, length)
    decreases 28 - symbol
  {
    hide LengthBase, LengthExtra, Pow2;
    LengthTable(symbol);
    if length < LengthBase(symbol) + Pow2(LengthExtra(symbol)) {
      s, extra := symbol, length - LengthBase(symbol);
    } else {
      s, extra := LengthFrom(symbol + 1, length);
    }
  }

  lemma {:induction false} DistanceFrom(symbol: nat, distance: nat) returns (s: nat, extra: nat)
    requires symbol < 30 && DistanceBase(symbol) <= distance <= 32768
    ensures SaysDistance(s, extra, distance)
    decreases 30 - symbol
  {
    hide DistanceBase, DistanceExtra, Pow2;
    DistanceTable(symbol);
    if distance < DistanceBase(symbol) + Pow2(DistanceExtra(symbol)) {
      s, extra := symbol, distance - DistanceBase(symbol);
    } else {
      s, extra := DistanceFrom(symbol + 1, distance);
    }
  }

  lemma {:induction false} LengthsGrow(s: nat, t: nat)
    requires s < t < 28
    ensures LengthBase(s) + Pow2(LengthExtra(s)) <= LengthBase(t)
    decreases t
  {
    hide LengthBase, LengthExtra, Pow2;
    LengthTable(s);
    if s + 1 < t {
      LengthTable(t - 1);
      LengthsGrow(s, t - 1);
    }
  }

  lemma {:induction false} DistancesGrow(s: nat, t: nat)
    requires s < t < 30
    ensures DistanceBase(s) + Pow2(DistanceExtra(s)) <= DistanceBase(t)
    decreases t
  {
    hide DistanceBase, DistanceExtra, Pow2;
    DistanceTable(s);
    if s + 1 < t {
      DistanceTable(t - 1);
      DistancesGrow(s, t - 1);
    }
  }

  /** A match is 3 to 258 long, and each of these lengths below 258 is said in one way. */
  lemma LengthIsSaid(length: nat) returns (symbol: nat, extra: nat)
    requires 3 <= length <= 258
    ensures SaysLength(symbol, extra, length)
    ensures length < 258 ==> forall s: nat, e: nat :: SaysLength(s, e, length) ==> s == symbol && e == extra
  {
    hide LengthBase, LengthExtra, Pow2;
    LengthTable(0);
    symbol, extra := LengthFrom(0, length);
    forall s: nat, e: nat | length < 258 && SaysLength(s, e, length) ensures s == symbol && e == extra {
      if s < symbol {
        LengthsGrow(s, symbol);
      } else if symbol < s {
        LengthsGrow(symbol, s);
      }
    }
  }

  /** A match reaches back 1 to 32768 bytes, and each of these distances is said in one way. */
  lemma DistanceIsSaid(distance: nat) returns (symbol: nat, extra: nat)
    requires 1 <= distance <= 32768
    ensures SaysDistance(symbol, extra, distance)
    ensures forall s: nat, e: nat :: SaysDistance(s, e, distance) ==> s == symbol && e == extra
  {
    hide DistanceBase, DistanceExtra, Pow2;
    DistanceTable(0);
    symbol, extra := DistanceFrom(0, distance);
    forall s: nat, e: nat | SaysDistance(s, e, distance) ensures s == symbol && e == extra {
      if s < symbol {
        DistancesGrow(s, symbol);
      } else if symbol < s {
        DistancesGrow(symbol, s);
      }
    }
  }

  /** Section 3.2.7: the 14 bits before the code lengths are the three sizes, counted from 257, 1 and 4. */
  lemma TableSizes(bits: seq<bit>, p: nat, b: Block, ll: seq<codelen>, dl: seq<codelen>, end: nat)
    requires b.Dynamic? && SpellsTables(bits, p, b, ll, dl, end)
    ensures p + 14 <= |bits|
    ensures Value(bits, p, 14) == (b.literals - 257) + 32 * (b.distances - 1) + 1024 * (|b.codeLengths| - 4)
  {
    hide Value, SpellsRuns, Usable, Complete, CodeLengths;
    ValueJoin(bits, p, 14, 5);
    ValueJoin(bits, p + 5, 9, 5);
    ShlFive(Value(bits, p + 5, 9));
    ShlFive(Value(bits, p + 10, 4));
  }

  lemma ShlFive(x: nat)
    ensures Shl(x, 5) == 32 * x
  {
    assert Shl(x, 1) == 2 * x && Shl(x, 2) == 4 * x && Shl(x, 3) == 8 * x && Shl(x, 4) == 16 * x;
  }

  /** Section 3.2.7: a run repeats the last length 3 to 6 times, or a zero 3 to 138 times. */
  lemma RunCounts(bits: seq<bit>, p: nat, cl: seq<codelen>, r: Run, lens: seq<codelen>)
    requires SpellsRun(bits, p, cl, r) && ApplyRun(lens, r).Some?
    ensures var next := ApplyRun(lens, r).value;
            && lens <= next
            && match r
               case One(l) => next == lens + [l]
               case Repeat(_) =>
                 lens != [] && 3 <= |next| - |lens| <= 6 && forall i :: |lens| <= i < |next| ==>
                     next[i] == lens[|lens| - 1]
               case Zeros(_) => 3 <= |next| - |lens| <= 10 && forall i :: |lens| <= i < |next| ==> next[i] == 0
               case ManyZeros(_) => 11 <= |next| - |lens| <= 138 && forall i :: |lens| <= i < |next| ==> next[i] == 0
  {
    hide Value;
    var at := p + cl[RunSymbol(r)];
    ValueBound(bits, at, RunBits(RunSymbol(r)));
    SmallPowers();
  }

  // ---- What blocks expand to ----

  /** `length` bytes, each a copy of the byte `distance` places back, written one by one. */
  function CopyBack(out: seq<byte>, distance: nat, length: nat): (r: seq<byte>)
    requires 0 < distance <= |out|
    ensures |r| == |out| + length && r[..|out|] == out
    decreases length
  {
    if length == 0 then out else CopyBack(out + [out[|out| - distance]], distance, length - 1)
  }

  function ApplyToken(t: Token, out: seq<byte>): Option<seq<byte>>
    requires t.Match? ==> t.lengthSymbol < 29 && t.distanceSymbol < 30
  {
    match t
    case Literal(b) => Some(out + [b])
    case EndOfBlock => Some(out)
    case Match(ls, le, ds, de) =>
      var length, distance := LengthBase(ls) + le, DistanceBase(ds) + de;
      if distance <= |out| then Some(CopyBack(out, distance, length)) else None
  }

  function ApplyTokens(tokens: seq<Token>, out: seq<byte>): (r: Option<seq<byte>>)
    ensures r.Some? ==> |out| <= |r.value|
  {
    if tokens == [] then Some(out)
    else if tokens[0].Match? && !(tokens[0].lengthSymbol < 29 && tokens[0].distanceSymbol < 30) then None
    else
      match ApplyToken(tokens[0], out)
      case None => None
      case Some(next) => ApplyTokens(tokens[1..], next)
  }

  function ApplyBlock(b: Block, out: seq<byte>): (r: Option<seq<byte>>)
    ensures r.Some? ==> |out| <= |r.value|
  {
    if b.Stored? then Some(out + b.data) else ApplyTokens(b.tokens, out)
  }

  function Expand(blocks: seq<Block>, out: seq<byte>): (r: Option<seq<byte>>)
    ensures r.Some? ==> |out| <= |r.value|
  {
    if blocks == [] then Some(out)
    else
      match ApplyBlock(blocks[0], out)
      case None => None
      case Some(next) => Expand(blocks[1..], next)
  }

  /** An overlapping copy repeats the last `distance` bytes. */
  lemma {:induction false} CopyRepeats(out: seq<byte>, distance: nat, length: nat, i: nat)
    requires 0 < distance <= |out| && i < length
    ensures CopyBack(out, distance, length)[|out| + i] == out[|out| - distance + i % distance]
    decreases length
  {
    var next := out + [out[|out| - distance]];
    var all := CopyBack(next, distance, length - 1);
    if i == 0 {
      assert all[|out|] == all[..|next|][|out|];
    } else {
      CopyRepeats(next, distance, length - 1, i - 1);
      if (i - 1) % distance == distance - 1 {
        NextMultiple(i, distance);
      } else {
        NextRemainder(i, distance);
      }
    }
  }

  lemma NextMultiple(i: nat, m: nat)
    requires i > 0 && m > 0 && (i - 1) % m == m - 1
    ensures i % m == 0
  {
    var k := (i - 1) / m;
    assert i == m * k + m == m * (k + 1) + 0;
    RemainderOf(i, m, k + 1, 0);
  }

  lemma NextRemainder(i: nat, m: nat)
    requires i > 0 && m > 0 && (i - 1) % m != m - 1
    ensures i % m == (i - 1) % m + 1
  {
    RemainderOf(i, m, (i - 1) / m, (i - 1) % m + 1);
  }

  lemma RemainderOf(x: nat, m: nat, k: int, r: nat)
    requires r < m && x == m * k + r
    ensures x % m == r
  {
    var q := x / m;
    assert x == m * q + x % m;
    assert m * (q - k) == m * q - m * k && m * (k - q) == m * k - m * q;
    if q > k {
      AtLeast(m, q - k);
    } else if q < k {
      AtLeast(m, k - q);
    }
  }

  lemma AtLeast(m: int, d: int)
    requires m > 0 && d >= 1
    ensures m * d >= m
  {
  }

  // ---- The decoder ----

  datatype Error = DataError | OverflowError

  datatype Outcome = Fail(error: Error) | Done(end: nat, out: seq<byte>)

  function NextDistance(bits: seq<bit>, p: nat, dl: seq<codelen>, ls: nat, le: nat): Option<(Token, nat)> {
    match Decode(bits, p, dl)
    case None => None
    case Some((ds, q)) =>
      if ds >= 30 || q + DistanceExtra(ds) > |bits| then None
      else Some((Match(ls, le, ds, Value(bits, q, DistanceExtra(ds))), q + DistanceExtra(ds)))
  }

  function NextToken(bits: seq<bit>, p: nat, ll: seq<codelen>, dl: seq<codelen>): Option<(Token, nat)> {
    match Decode(bits, p, ll)
    case None => None
    case Some((s, q)) =>
      if s < 256 then Some((Literal(s), q))
      else if s == 256 then Some((EndOfBlock, q))
      else if s - 257 >= 29 || q + LengthExtra(s - 257) > |bits| then None
      else
        var n := LengthExtra(s - 257);
        NextDistance(bits, q + n, dl, s - 257, Value(bits, q, n))
  }

  lemma NextTokenIff(bits: seq<bit>, p: nat, ll: seq<codelen>, dl: seq<codelen>, t: Token, q: nat)
    ensures NextToken(bits, p, ll, dl) == Some((t, q))
       <==> SpellsToken(bits, p, ll, dl, t) && q == TokenEnd(bits, p, ll, dl, t)
  {
    hide Decode, CodeValue, Code, Value, LengthExtra, DistanceExtra;
    if NextToken(bits, p, ll, dl) == Some((t, q)) {
      var (s, m) := Decode(bits, p, ll).value;
      DecodeIff(bits, p, ll, s, m);
      if s > 256 {
        var start := m + LengthExtra(s - 257);
        var (ds, dm) := Decode(bits, start, dl).value;
        DecodeIff(bits, start, dl, ds, dm);
      }
    }
    if SpellsToken(bits, p, ll, dl, t) {
      match t
      case Literal(b) => DecodeIff(bits, p, ll, b, p + ll[b]);
      case EndOfBlock => DecodeIff(bits, p, ll, 256, p + ll[256]);
      case Match(ls, _, ds, _) =>
        DecodeIff(bits, p, ll, 257 + ls, p + ll[257 + ls]);
        DecodeIff(bits, LengthEnd(p, ll, t), dl, ds, LengthEnd(p, ll, t) + dl[ds]);
    }
  }

  lemma TokenMoves(bits: seq<bit>, p: nat, ll: seq<codelen>, dl: seq<codelen>)
    requires NextToken(bits, p, ll, dl).Some?
    ensures p < NextToken(bits, p, ll, dl).value.1 <= |bits|
    ensures var t := NextToken(bits, p, ll, dl).value.0; t.Match? ==> t.lengthSymbol < 29 && t.distanceSymbol < 30
  {
  }

  /** One block of codes, from `p` on, behind `out`, into a buffer of `cap` bytes. */
  function Codes(bits: seq<bit>, p: nat, ll: seq<codelen>, dl: seq<codelen>, out: seq<byte>, cap: nat): Outcome
    requires |out| <= cap
    decreases |bits| - p
  {
    match NextToken(bits, p, ll, dl)
    case None => Fail(DataError)
    case Some((t, q)) =>
      TokenMoves(bits, p, ll, dl);
      match t
      case EndOfBlock => Done(q, out)
      case Literal(b) => if |out| >= cap then Fail(OverflowError) else Codes(bits, q, ll, dl, out + [b], cap)
      case Match(ls, le, ds, de) =>
        var length, distance := LengthBase(ls) + le, DistanceBase(ds) + de;
        if distance > |out| then Fail(DataError)
        else if cap - |out| < length then Fail(OverflowError)
        else Codes(bits, q, ll, dl, CopyBack(out, distance, length), cap)
  }

  lemma {:induction false} CodesSound(bits: seq<bit>, p: nat, ll: seq<codelen>, dl: seq<codelen>, out: seq<byte>,
      cap: nat)
    returns (tokens: seq<Token>)
    requires |out| <= cap && Codes(bits, p, ll, dl, out, cap).Done?
    ensures var r := Codes(bits, p, ll, dl, out, cap);
            SpellsTokens(bits, p, ll, dl, tokens, r.end) && ApplyTokens(tokens, out) == Some(r.out) && |r.out| <= cap
    decreases |bits| - p
  {
    hide NextToken, SpellsToken, TokenEnd, CopyBack, LengthBase, DistanceBase;
    var (t, q) := NextToken(bits, p, ll, dl).value;
    NextTokenIff(bits, p, ll, dl, t, q);
    TokenMoves(bits, p, ll, dl);
    if t.EndOfBlock? {
      tokens := [t];
    } else {
      var next := ApplyToken(t, out).value;
      var rest := CodesSound(bits, q, ll, dl, next, cap);
      tokens := [t] + rest;
      assert tokens[1..] == rest;
    }
  }

  lemma {:induction false} CodesComplete(bits: seq<bit>, p: nat, ll: seq<codelen>, dl: seq<codelen>, tokens: seq<Token>,
                                         end: nat, out: seq<byte>, cap: nat)
    requires SpellsTokens(bits, p, ll, dl, tokens, end)
    requires ApplyTokens(tokens, out).Some? && |ApplyTokens(tokens, out).value| <= cap
    ensures |out| <= cap && Codes(bits, p, ll, dl, out, cap) == Done(end, ApplyTokens(tokens, out).value)
    decreases |tokens|
  {
    hide NextToken, SpellsToken, TokenEnd, CopyBack, LengthBase, DistanceBase;
    var t := tokens[0];
    var q := TokenEnd(bits, p, ll, dl, t);
    NextTokenIff(bits, p, ll, dl, t, q);
    if t.EndOfBlock? {
      assert tokens[1..] == [];
    } else {
      CodesComplete(bits, q, ll, dl, tokens[1..], end, ApplyToken(t, out).value, cap);
    }
  }

  function NextRun(bits: seq<bit>, p: nat, cl: seq<codelen>): Option<(Run, nat)>
    requires |cl| == 19
  {
    match Decode(bits, p, cl)
    case None => None
    case Some((s, q)) =>
      var n := RunBits(s);
      if q + n > |bits| then None
      else
        var v := Value(bits, q, n);
        Some((if s < 16 then One(s) else if s == 16 then Repeat(v) else if s == 17 then Zeros(v)
            else ManyZeros(v), q + n))
  }

  lemma NextRunIff(bits: seq<bit>, p: nat, cl: seq<codelen>, r: Run, q: nat)
    requires |cl| == 19
    ensures NextRun(bits, p, cl) == Some((r, q)) <==> SpellsRun(bits, p, cl, r) && q == RunEnd(p, cl, r)
  {
    hide Decode, CodeValue, Code;
    if NextRun(bits, p, cl) == Some((r, q)) {
      var (s, m) := Decode(bits, p, cl).value;
      DecodeIff(bits, p, cl, s, m);
    }
    if SpellsRun(bits, p, cl, r) {
      DecodeIff(bits, p, cl, RunSymbol(r), p + cl[RunSymbol(r)]);
    }
  }

  /** The runs at `p` until there are `total` code lengths, and the place after them. */
  function ReadRuns(bits: seq<bit>, p: nat, cl: seq<codelen>, lens: seq<codelen>,
      total: nat): (r: Option<(seq<codelen>, nat)>)
    requires |cl| == 19 && |lens| <= total
    ensures r.Some? ==> |r.value.0| == total && p <= r.value.1
    decreases total - |lens|
  {
    if |lens| == total then Some((lens, p))
    else
      match NextRun(bits, p, cl)
      case None => None
      case Some((r, q)) =>
        match ApplyRun(lens, r)
        case None => None
        case Some(next) => if |next| > total then None else ReadRuns(bits, q, cl, next, total)
  }

  lemma {:induction false} ReadRunsSound(bits: seq<bit>, p: nat, cl: seq<codelen>, lens: seq<codelen>, total: nat)
    returns (runs: seq<Run>)
    requires |cl| == 19 && |lens| <= total && ReadRuns(bits, p, cl, lens, total).Some?
    ensures var (all, end) := ReadRuns(bits, p, cl, lens, total).value;
            SpellsRuns(bits, p, cl, runs, lens, total, all, end)
    decreases total - |lens|
  {
    hide NextRun, SpellsRun, RunEnd;
    if |lens| == total {
      runs := [];
    } else {
      var (r, q) := NextRun(bits, p, cl).value;
      NextRunIff(bits, p, cl, r, q);
      var rest := ReadRunsSound(bits, q, cl, ApplyRun(lens, r).value, total);
      runs := [r] + rest;
      assert runs[1..] == rest;
    }
  }

  lemma {:induction false} ReadRunsComplete(bits: seq<bit>, p: nat, cl: seq<codelen>, runs: seq<Run>,
      lens: seq<codelen>,
                                            total: nat, all: seq<codelen>, end: nat)
    requires |cl| == 19 && SpellsRuns(bits, p, cl, runs, lens, total, all, end)
    ensures |lens| <= total && ReadRuns(bits, p, cl, lens, total) == Some((all, end))
    decreases |runs|
  {
    hide NextRun, SpellsRun, ApplyRun, RunEnd;
    if runs != [] {
      var r := runs[0];
      NextRunIff(bits, p, cl, r, RunEnd(p, cl, r));
      ReadRunsComplete(bits, RunEnd(p, cl, r), cl, runs[1..], ApplyRun(lens, r).value, total, all, end);
    }
  }

  lemma SmallValue(bits: seq<bit>, p: nat, n: nat)
    requires p + n <= |bits| && n <= 8
    ensures Value(bits, p, n) < 256 && (n <= 3 ==> Value(bits, p, n) < 8)
    ensures (n <= 5 ==> Value(bits, p, n) < 32) && (n <= 4 ==> Value(bits, p, n) < 16)
  {
    hide Value, Pow2;
    ValueBound(bits, p, n);
    SmallPowers();
  }

  function SmallLength(bits: seq<bit>, p: nat): codelen
    requires p + 3 <= |bits|
  {
    SmallValue(bits, p, 3);
    Value(bits, p, 3)
  }

  function GivenLengths(bits: seq<bit>, p: nat, n: nat): (r: seq<codelen>)
    requires p + 3 * n <= |bits|
    ensures |r| == n
  {
    seq(n, i requires 0 <= i < n => SmallLength(bits, p + 3 * i))
  }

  /** The two code length vectors of a dynamic block, and the place after its header. */
  function ReadTables(bits: seq<bit>, p: nat): (r: Option<(seq<codelen>, seq<codelen>, nat)>)
    ensures r.Some? ==> p <= r.value.2
  {
    if p + 14 > |bits| then None
    else
      var literals, distances := Value(bits, p, 5) + 257, Value(bits, p + 5, 5) + 1;
      var n := Value(bits, p + 10, 4) + 4;
      if literals > MAX_LITERAL_CODES || distances > MAX_DISTANCE_CODES || p + 14 + 3 * n > |bits| then None
      else
        var cl := CodeLengths(GivenLengths(bits, p + 14, n));
        if !Complete(cl) then None
        else
          match ReadRuns(bits, p + 14 + 3 * n, cl, [], literals + distances)
          case None => None
          case Some((lens, q)) =>
            if lens[256] == 0 || !Usable(lens[..literals]) || !Usable(lens[literals..]) then None
            else Some((lens[..literals], lens[literals..], q))
  }

  lemma ReadTablesSound(bits: seq<bit>, p: nat, tokens: seq<Token>) returns (b: Block)
    requires ReadTables(bits, p).Some?
    ensures var (ll, dl, q) := ReadTables(bits, p).value; b.Dynamic? && SpellsTables(bits, p, b, ll, dl, q)
    ensures b.tokens == tokens
  {
    hide Complete, Usable, ReadRuns, SpellsRuns, CodeLengths, Value;
    var literals, distances, n := Value(bits, p, 5) + 257, Value(bits, p + 5, 5) + 1, Value(bits, p + 10, 4) + 4;
    SmallValue(bits, p + 10, 4);
    var given := GivenLengths(bits, p + 14, n);
    var runs := ReadRunsSound(bits, p + 14 + 3 * n, CodeLengths(given), [], literals + distances);
    var (lens, q) := ReadRuns(bits, p + 14 + 3 * n, CodeLengths(given), [], literals + distances).value;
    b := Dynamic(literals, distances, given, runs, tokens);
    assert lens == lens[..literals] + lens[literals..];
  }

  lemma ReadTablesComplete(bits: seq<bit>, p: nat, b: Block, ll: seq<codelen>, dl: seq<codelen>, q: nat)
    requires b.Dynamic? && SpellsTables(bits, p, b, ll, dl, q)
    ensures ReadTables(bits, p) == Some((ll, dl, q))
  {
    hide Complete, Usable, ReadRuns, SpellsRuns, CodeLengths;
    var n := |b.codeLengths|;
    assert SpellsNumber(bits, p + 14 + 3 * (n - 1), 3, b.codeLengths[n - 1]);
    var given := GivenLengths(bits, p + 14, n);
    assert given == b.codeLengths by {
      forall i | 0 <= i < n ensures given[i] == b.codeLengths[i] {
        assert SpellsNumber(bits, p + 14 + 3 * i, 3, b.codeLengths[i]);
      }
    }
    ReadRunsComplete(bits, p + 14 + 3 * n, CodeLengths(given), b.runs, [], b.literals + b.distances, ll + dl, q);
    assert (ll + dl)[..b.literals] == ll && (ll + dl)[b.literals..] == dl;
  }

  function ByteAt(bits: seq<bit>, p: nat): byte
    requires p + 8 <= |bits|
  {
    SmallValue(bits, p, 8);
    Value(bits, p, 8)
  }

  function BytesAt(bits: seq<bit>, p: nat, n: nat): (r: seq<byte>)
    requires p + 8 * n <= |bits|
    ensures |r| == n && SpellsBytes(bits, p, r)
  {
    seq(n, i requires 0 <= i < n => ByteAt(bits, p + 8 * i))
  }

  /** LEN and NLEN at `q` are each other's complement, and LEN bytes follow. */
  predicate StoredFits(bits: seq<bit>, q: nat) {
    && q + 32 <= |bits| && Value(bits, q, 16) + Value(bits, q + 16, 16) == 0xFFFF
    && q + 32 + 8 * Value(bits, q, 16) <= |bits|
  }

  function StoredBody(bits: seq<bit>, p: nat, out: seq<byte>, cap: nat): Outcome
    requires |out| <= cap
  {
    var q := Align(p);
    if !StoredFits(bits, q) then Fail(DataError)
    else
      var n := Value(bits, q, 16);
      if cap - |out| < n then Fail(OverflowError)
      else Done(q + 32 + 8 * n, out + BytesAt(bits, q + 32, n))
  }

  function Body(bits: seq<bit>, p: nat, kind: nat, out: seq<byte>, cap: nat): Outcome
    requires |out| <= cap
  {
    if kind == 0 then StoredBody(bits, p, out, cap)
    else if kind == 1 then Codes(bits, p, FixedLiterals(), FixedDistances(), out, cap)
    else if kind == 2 then
      match ReadTables(bits, p)
      case None => Fail(DataError)
      case Some((ll, dl, q)) => Codes(bits, q, ll, dl, out, cap)
    else Fail(DataError)
  }

  lemma {:induction false} CodesEnd(bits: seq<bit>, p: nat, ll: seq<codelen>, dl: seq<codelen>, out: seq<byte>,
      cap: nat)
    requires |out| <= cap
    ensures var r := Codes(bits, p, ll, dl, out, cap); r.Done? ==> p < r.end <= |bits| && |r.out| <= cap
    decreases |bits| - p
  {
    hide NextToken, CopyBack, LengthBase, DistanceBase;
    if NextToken(bits, p, ll, dl).Some? {
      TokenMoves(bits, p, ll, dl);
      var (t, q) := NextToken(bits, p, ll, dl).value;
      if t.Literal? && |out| < cap {
        CodesEnd(bits, q, ll, dl, out + [t.value], cap);
      } else if t.Match? {
        var length, distance :=
            LengthBase(t.lengthSymbol) + t.lengthExtra, DistanceBase(t.distanceSymbol) + t.distanceExtra;
        if distance <= |out| && length <= cap - |out| {
          CodesEnd(bits, q, ll, dl, CopyBack(out, distance, length), cap);
        }
      }
    }
  }

  lemma BodyEnd(bits: seq<bit>, p: nat, kind: nat, out: seq<byte>, cap: nat)
    requires |out| <= cap
    ensures var r := Body(bits, p, kind, out, cap); r.Done? ==> p <= r.end <= |bits| && |r.out| <= cap
  {
    hide Codes, ReadTables;
    if kind == 1 {
      CodesEnd(bits, p, FixedLiterals(), FixedDistances(), out, cap);
    } else if kind == 2 && ReadTables(bits, p).Some? {
      var (ll, dl, q) := ReadTables(bits, p).value;
      CodesEnd(bits, q, ll, dl, out, cap);
    }
  }

  lemma BodySound(bits: seq<bit>, p: nat, kind: nat, out: seq<byte>, cap: nat) returns (b: Block)
    requires |out| <= cap && Body(bits, p, kind, out, cap).Done?
    ensures var r := Body(bits, p, kind, out, cap);
            BlockType(b) == kind && SpellsBody(bits, p, b, r.end) && ApplyBlock(b, out) == Some(r.out)
  {
    hide Codes, ReadTables, SpellsTokens, SpellsTables, ApplyTokens, Value;
    if kind == 0 {
      ValueBound(bits, Align(p), 16);
      b := Stored(BytesAt(bits, Align(p) + 32, Value(bits, Align(p), 16)));
    } else if kind == 1 {
      var tokens := CodesSound(bits, p, FixedLiterals(), FixedDistances(), out, cap);
      b := Fixed(tokens);
    } else {
      var (ll, dl, q) := ReadTables(bits, p).value;
      var tokens := CodesSound(bits, q, ll, dl, out, cap);
      b := ReadTablesSound(bits, p, tokens);
    }
  }

  lemma BodyComplete(bits: seq<bit>, p: nat, b: Block, end: nat, out: seq<byte>, cap: nat)
    requires SpellsBody(bits, p, b, end) && ApplyBlock(b, out).Some? && |ApplyBlock(b, out).value| <= cap
    ensures |out| <= cap && Body(bits, p, BlockType(b), out, cap) == Done(end, ApplyBlock(b, out).value)
  {
    hide Codes, ReadTables, SpellsTokens, SpellsTables, ApplyTokens, Value;
    match b
    case Stored(data) =>
      assert BytesAt(bits, Align(p) + 32, |data|) == data;
    case Fixed(tokens) =>
      CodesComplete(bits, p, FixedLiterals(), FixedDistances(), tokens, end, out, cap);
    case Dynamic(_, _, _, _, tokens) =>
      var ll, dl, q :| SpellsTables(bits, p, b, ll, dl, q) && SpellsTokens(bits, q, ll, dl, tokens, end);
      ReadTablesComplete(bits, p, b, ll, dl, q);
      CodesComplete(bits, q, ll, dl, tokens, end, out, cap);
  }

  /** All the blocks from `p` on. */
  function Blocks(bits: seq<bit>, p: nat, out: seq<byte>, cap: nat): Outcome
    requires |out| <= cap
    decreases |bits| - p
  {
    if p + 3 > |bits| then Fail(DataError)
    else
      BodyEnd(bits, p + 3, Value(bits, p + 1, 2), out, cap);
      match Body(bits, p + 3, Value(bits, p + 1, 2), out, cap)
      case Fail(e) => Fail(e)
      case Done(q, next) => if Value(bits, p, 1) == 1 then Done(q, next) else Blocks(bits, q, next, cap)
  }

  lemma {:induction false} BlocksSound(bits: seq<bit>, p: nat, out: seq<byte>, cap: nat) returns (blocks: seq<Block>)
    requires |out| <= cap && Blocks(bits, p, out, cap).Done?
    ensures var r := Blocks(bits, p, out, cap);
            SpellsBlocks(bits, p, blocks, r.end) && Expand(blocks, out) == Some(r.out) && |r.out| <= cap
    decreases |bits| - p
  {
    hide Body, SpellsBody, ApplyBlock, BlockType;
    var kind := Value(bits, p + 1, 2);
    var r := Body(bits, p + 3, kind, out, cap);
    BodyEnd(bits, p + 3, kind, out, cap);
    var b := BodySound(bits, p + 3, kind, out, cap);
    if Value(bits, p, 1) == 1 {
      blocks := [b];
      assert blocks[1..] == [];
    } else {
      assert Value(bits, p, 1) == 0 by { assert Value(bits, p + 1, 0) == 0; }
      var rest := BlocksSound(bits, r.end, r.out, cap);
      blocks := [b] + rest;
      assert blocks[1..] == rest;
    }
  }

  lemma {:induction false} BlocksComplete(bits: seq<bit>, p: nat, blocks: seq<Block>, end: nat, out: seq<byte>,
      cap: nat)
    requires SpellsBlocks(bits, p, blocks, end)
    requires Expand(blocks, out).Some? && |Expand(blocks, out).value| <= cap
    ensures |out| <= cap && Blocks(bits, p, out, cap) == Done(end, Expand(blocks, out).value)
    decreases |blocks|
  {
    hide Body, SpellsBody, ApplyBlock, BlockType, Value;
    var b := blocks[0];
    var next := ApplyBlock(b, out).value;
    if |blocks| == 1 {
      assert blocks[1..] == [];
      BodyComplete(bits, p + 3, b, end, out, cap);
    } else {
      var q :| SpellsBody(bits, p + 3, b, q) && SpellsBlocks(bits, q, blocks[1..], end);
      BlocksComplete(bits, q, blocks[1..], end, next, cap);
      BodyComplete(bits, p + 3, b, q, out, cap);
    }
  }
}
