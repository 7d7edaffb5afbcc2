// Canonical Huffman codes: the rule of RFC 1951, section 3.2.2, and the one-bit-at-a-time decoder
// over code lengths that `decode` in tools/usermod/glyphcore/inflate.c runs on its two tables.
module Huffman {
  import opened Bits

  const MAX_BITS := 15

  type codelen = x: int | 0 <= x <= MAX_BITS

  /** The number of the first `n` symbols with a code of `l` bits. */
  function CountIn(lens: seq<codelen>, n: nat, l: nat): nat
    requires n <= |lens|
  {
    if n == 0 then 0 else CountIn(lens, n - 1, l) + if lens[n - 1] == l then 1 else 0
  }

  function Count(lens: seq<codelen>, l: nat): nat {
    CountIn(lens, |lens|, l)
  }

  /** The smallest code of `l` bits: step 2 of RFC 1951, section 3.2.2. */
  function FirstCode(lens: seq<codelen>, l: nat): nat {
    if l <= 1 then 0 else 2 * (FirstCode(lens, l - 1) + Count(lens, l - 1))
  }

  /** The code of symbol `s`: codes of one length follow the order of their symbols. */
  function Code(lens: seq<codelen>, s: nat): nat
    requires s < |lens|
  {
    FirstCode(lens, lens[s]) + CountIn(lens, s, lens[s])
  }

  /** The number of coded symbols with a code shorter than `l` bits. */
  function Index(lens: seq<codelen>, l: nat): nat {
    if l <= 1 then 0 else Index(lens, l - 1) + Count(lens, l - 1)
  }

  /** The codes of `l` bits that are left over once every code of at most `l` bits is taken. */
  function Left(lens: seq<codelen>, l: nat): int {
    if l == 0 then 1 else 2 * Left(lens, l - 1) - Count(lens, l)
  }

  ghost predicate NotOversubscribed(lens: seq<codelen>) {
    forall l :: 0 <= l <= MAX_BITS ==> Left(lens, l) >= 0
  }

  /** The bits at `p` are the code of `s`. */
  ghost predicate Spells(bits: seq<bit>, p: nat, lens: seq<codelen>, s: nat) {
    s < |lens| && lens[s] > 0 && p + lens[s] <= |bits| && CodeValue(bits, p, lens[s]) == Code(lens, s)
  }

  /** The symbol with `r` symbols of the same length before it. */
  function NthIn(lens: seq<codelen>, n: nat, l: nat, r: nat): (s: nat)
    requires n <= |lens| && r < CountIn(lens, n, l)
    ensures s < n && lens[s] == l && CountIn(lens, s, l) == r
  {
    if lens[n - 1] == l && CountIn(lens, n - 1, l) == r then n - 1 else NthIn(lens, n - 1, l, r)
  }

  /** The decoder from length `l` on: a symbol and the place after its code, or nothing. */
  function DecodeFrom(bits: seq<bit>, p: nat, lens: seq<codelen>, l: nat): (r: Option<(nat, nat)>)
    requires l > 0
    ensures r.Some? ==> r.value.0 < |lens| && p < r.value.1 <= |bits|
    decreases MAX_BITS + 1 - l
  {
    if l > MAX_BITS || p + l > |bits| then None
    else
      var code, first := CodeValue(bits, p, l), FirstCode(lens, l);
      if first <= code < first + Count(lens, l)
      then Some((NthIn(lens, |lens|, l, code - first), p + l))
      else DecodeFrom(bits, p, lens, l + 1)
  }

  function Decode(bits: seq<bit>, p: nat, lens: seq<codelen>): (r: Option<(nat, nat)>)
    ensures r.Some? ==> r.value.0 < |lens| && p < r.value.1 <= |bits|
  {
    DecodeFrom(bits, p, lens, 1)
  }

  // ---- The decoder reads exactly the canonical code ----

  lemma {:induction false} DecodeFromSound(bits: seq<bit>, p: nat, lens: seq<codelen>, l: nat)
    requires l > 0 && DecodeFrom(bits, p, lens, l).Some?
    ensures var (s, q) := DecodeFrom(bits, p, lens, l).value;
            Spells(bits, p, lens, s) && q == p + lens[s]
    decreases MAX_BITS + 1 - l
  {
    var code, first := CodeValue(bits, p, l), FirstCode(lens, l);
    if first <= code < first + Count(lens, l) {
    } else {
      DecodeFromSound(bits, p, lens, l + 1);
    }
  }

  lemma {:induction false} CountInStep(lens: seq<codelen>, a: nat, b: nat, l: nat)
    requires a < b <= |lens| && lens[a] == l
    ensures CountIn(lens, a, l) < CountIn(lens, b, l)
  {
    if a + 1 < b {
      CountInStep(lens, a, b - 1, l);
    }
  }

  /** Two symbols of one length have different ranks, so the rank names the symbol. */
  lemma NthIsUnique(lens: seq<codelen>, s: nat)
    requires s < |lens|
    ensures CountIn(lens, s, lens[s]) < Count(lens, lens[s])
    ensures NthIn(lens, |lens|, lens[s], CountIn(lens, s, lens[s])) == s
  {
    CountInStep(lens, s, |lens|, lens[s]);
    var t := NthIn(lens, |lens|, lens[s], CountIn(lens, s, lens[s]));
    if t < s {
      CountInStep(lens, t, s, lens[s]);
    } else if s < t {
      CountInStep(lens, s, t, lens[s]);
    }
  }

  /** A proper prefix of a code lies above every code of its own length. */
  lemma {:induction false} PrefixIsAbove(bits: seq<bit>, p: nat, lens: seq<codelen>, l: nat, n: nat)
    requires 0 < l < n && p + n <= |bits| && FirstCode(lens, n) <= CodeValue(bits, p, n)
    ensures CodeValue(bits, p, l) >= FirstCode(lens, l) + Count(lens, l)
    decreases n
  {
    assert CodeValue(bits, p, n - 1) >= FirstCode(lens, n - 1) + Count(lens, n - 1);
    if l < n - 1 {
      PrefixIsAbove(bits, p, lens, l, n - 1);
    }
  }

  lemma {:induction false} DecodeFromComplete(bits: seq<bit>, p: nat, lens: seq<codelen>, s: nat, l: nat)
    requires Spells(bits, p, lens, s) && 0 < l <= lens[s]
    ensures DecodeFrom(bits, p, lens, l) == Some((s, p + lens[s]))
    decreases lens[s] - l
  {
    if l < lens[s] {
      PrefixIsAbove(bits, p, lens, l, lens[s]);
      DecodeFromComplete(bits, p, lens, s, l + 1);
    } else {
      NthIsUnique(lens, s);
    }
  }

  /** The decoder returns `s` and consumes its bits exactly when those bits are the code of `s`. */
  lemma DecodeIff(bits: seq<bit>, p: nat, lens: seq<codelen>, s: nat, q: nat)
    ensures Decode(bits, p, lens) == Some((s, q)) <==> Spells(bits, p, lens, s) && q == p + lens[s]
  {
    if Decode(bits, p, lens) == Some((s, q)) {
      DecodeFromSound(bits, p, lens, 1);
    }
    if Spells(bits, p, lens, s) {
      DecodeFromComplete(bits, p, lens, s, 1);
    }
  }

  // ---- The count of codes and the round trip ----

  lemma {:induction false} LeftOver(lens: seq<codelen>, l: nat)
    requires l > 0
    ensures Left(lens, l) == Pow2(l) - FirstCode(lens, l) - Count(lens, l)
  {
    if l > 1 {
      LeftOver(lens, l - 1);
    }
  }

  /** Without over-subscription every code fits its length. */
  lemma CodeFits(lens: seq<codelen>, s: nat)
    requires NotOversubscribed(lens) && s < |lens| && lens[s] > 0
    ensures Code(lens, s) < Pow2(lens[s])
  {
    assert Left(lens, lens[s]) >= 0;
    LeftOver(lens, lens[s]);
    NthIsUnique(lens, s);
  }

  /** A code of `n` bits, most significant bit first. */
  function CodeBits(code: nat, n: nat): (r: seq<bit>)
    ensures |r| == n
  {
    if n == 0 then [] else CodeBits(code / 2, n - 1) + [code % 2]
  }

  function Encode(lens: seq<codelen>, symbols: seq<nat>): seq<bit>
    requires forall i :: 0 <= i < |symbols| ==> symbols[i] < |lens|
  {
    if symbols == [] then []
    else CodeBits(Code(lens, symbols[0]), lens[symbols[0]]) + Encode(lens, symbols[1..])
  }

  /** `n` symbols read one after the other. */
  function DecodeMany(bits: seq<bit>, p: nat, lens: seq<codelen>, n: nat): Option<(seq<nat>, nat)>
    decreases n
  {
    if n == 0 then Some(([], p))
    else
      match Decode(bits, p, lens)
      case None => None
      case Some((s, q)) =>
        match DecodeMany(bits, q, lens, n - 1)
        case None => None
        case Some((rest, end)) => Some(([s] + rest, end))
  }

  lemma {:induction false} CodeValueOfBits(bits: seq<bit>, p: nat, code: nat, n: nat)
    requires p + n <= |bits| && bits[p..p + n] == CodeBits(code, n) && code < Pow2(n)
    ensures CodeValue(bits, p, n) == code
    decreases n
  {
    if n > 0 {
      var all, init := CodeBits(code, n), CodeBits(code / 2, n - 1);
      assert bits[p..p + n - 1] == bits[p..p + n][..n - 1] == all[..n - 1] == init;
      assert bits[p + n - 1] == bits[p..p + n][n - 1] == code % 2;
      CodeValueOfBits(bits, p, code / 2, n - 1);
    }
  }

  ghost predicate Stands(bits: seq<bit>, p: nat, part: seq<bit>) {
    p + |part| <= |bits| && bits[p..p + |part|] == part
  }

  lemma StandsSplit(bits: seq<bit>, p: nat, a: seq<bit>, b: seq<bit>)
    requires Stands(bits, p, a + b)
    ensures Stands(bits, p, a) && Stands(bits, p + |a|, b)
  {
    var whole := bits[p..p + |a + b|];
    assert whole[..|a|] == a && whole[|a|..] == b;
  }

  /** One code decodes to its symbol. */
  lemma DecodeCode(lens: seq<codelen>, s: nat, bits: seq<bit>, p: nat)
    requires NotOversubscribed(lens) && s < |lens| && lens[s] > 0
    requires Stands(bits, p, CodeBits(Code(lens, s), lens[s]))
    ensures Decode(bits, p, lens) == Some((s, p + lens[s]))
  {
    hide NotOversubscribed, Code, CodeBits, Decode;
    CodeFits(lens, s);
    CodeValueOfBits(bits, p, Code(lens, s), lens[s]);
    DecodeIff(bits, p, lens, s, p + lens[s]);
  }

  /** Encoding any symbols and then decoding gives them back, wherever the code stands. */
  lemma {:induction false} RoundTrip(lens: seq<codelen>, symbols: seq<nat>, bits: seq<bit>, p: nat)
    requires NotOversubscribed(lens)
    requires forall i :: 0 <= i < |symbols| ==> symbols[i] < |lens| && lens[symbols[i]] > 0
    requires Stands(bits, p, Encode(lens, symbols))
    ensures DecodeMany(bits, p, lens, |symbols|) == Some((symbols, p + |Encode(lens, symbols)|))
    decreases |symbols|
  {
    hide NotOversubscribed, Code, CodeBits, Decode, Stands;
    if symbols != [] {
      var s, rest := symbols[0], symbols[1..];
      StandsSplit(bits, p, CodeBits(Code(lens, s), lens[s]), Encode(lens, rest));
      DecodeCode(lens, s, bits, p);
      RoundTrip(lens, rest, bits, p + lens[s]);
      assert symbols == [s] + rest;
    }
  }

  // ---- Facts the tables rest on ----

  lemma {:induction false} IndexMonotone(lens: seq<codelen>, a: nat, b: nat)
    requires a <= b
    ensures Index(lens, a) <= Index(lens, b)
    decreases b
  {
    if a < b {
      IndexMonotone(lens, a, b - 1);
    }
  }

  /** How many of the first `n` symbols have a code of `1` to `l - 1` bits. */
  function ShorterIn(lens: seq<codelen>, n: nat, l: nat): nat
    requires n <= |lens|
  {
    if n == 0 then 0 else ShorterIn(lens, n - 1, l) + if 0 < lens[n - 1] < l then 1 else 0
  }

  lemma {:induction false} ShorterStep(lens: seq<codelen>, n: nat, l: nat)
    requires n <= |lens| && l > 0
    ensures ShorterIn(lens, n, l + 1) == ShorterIn(lens, n, l) + CountIn(lens, n, l)
  {
    if n > 0 {
      ShorterStep(lens, n - 1, l);
    }
  }

  lemma {:induction false} ShorterNone(lens: seq<codelen>, n: nat)
    requires n <= |lens|
    ensures ShorterIn(lens, n, 1) == 0
  {
    if n > 0 {
      ShorterNone(lens, n - 1);
    }
  }

  lemma {:induction false} ShorterAtMost(lens: seq<codelen>, n: nat, l: nat)
    requires n <= |lens|
    ensures ShorterIn(lens, n, l) <= n
  {
    if n > 0 {
      ShorterAtMost(lens, n - 1, l);
    }
  }

  lemma {:induction false} IndexIsShorter(lens: seq<codelen>, l: nat)
    requires l > 0
    ensures Index(lens, l) == ShorterIn(lens, |lens|, l)
  {
    if l == 1 {
      ShorterNone(lens, |lens|);
    } else {
      IndexIsShorter(lens, l - 1);
      ShorterStep(lens, |lens|, l - 1);
    }
  }

  lemma IndexAtMost(lens: seq<codelen>, l: nat)
    requires l > 0
    ensures Index(lens, l) <= |lens|
  {
    IndexIsShorter(lens, l);
    ShorterAtMost(lens, |lens|, l);
  }

  lemma {:induction false} CountAtMost(lens: seq<codelen>, n: nat, l: nat)
    requires n <= |lens|
    ensures CountIn(lens, n, l) <= n
  {
    if n > 0 {
      CountAtMost(lens, n - 1, l);
    }
  }
}
