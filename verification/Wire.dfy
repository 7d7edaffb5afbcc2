// The frames between host and board: the host's encoders (driver/transport/wire.go and frames.go) and
// what the board makes of one whole frame (firmware/wire.py).
module Wire {
  import opened Bits
  import opened Sizes

  const GLYPH_PAYLOAD := 32769
  const HEADER := 3
  const SHOW_MAX_KEYS := 32
  const MAX_PIP_COLORS := 8

  type word = x: int | 0 <= x < 65536

  datatype Message =
    | KeyState(key: byte, color: word, emoji: byte, blink: bool)
    | Glyph(key: byte, pixels: seq<byte>)
    | BeginBatch(glyphs: byte, states: byte)
    | StoreFrame(slot: byte, color: word, picture: Option<seq<byte>>)
    | ShowFrames(slots: seq<byte>)
    | PipSheet(colors: seq<word>, pixels: seq<byte>)
    | ShowPips(slots: seq<byte>, counts: seq<byte>)

  /** A frame as it is on the wire. */
  datatype Frame = Frame(kind: byte, payload: seq<byte>)

  function Low(w: word): byte { w % 256 }
  function High(w: word): byte { w / 256 }
  function Join(low: byte, high: byte): word { low + 256 * (high as int) }

  /** `writeFrame`: type, little-endian length, payload. */
  function Bytes(f: Frame): (r: seq<byte>)
    requires |f.payload| < 65536
    ensures |r| == HEADER + |f.payload| && r[0] == f.kind && r[3..] == f.payload
    ensures r[1] as int + 256 * (r[2] as int) == |f.payload|
  {
    [f.kind, Low(|f.payload|), High(|f.payload|)] + f.payload
  }

  function AllBytes(frames: seq<Frame>): seq<byte>
    requires forall i :: 0 <= i < |frames| ==> |frames[i].payload| < 65536
  {
    if frames == [] then [] else Bytes(frames[0]) + AllBytes(frames[1..])
  }

  /** The board knows the type. */
  predicate Known(kind: byte) {
    kind in {5, 6, 7, 8, 9, 12, 13, 14}
  }

  /** The board reads a frame of this type and length; it drops every other one. */
  predicate Allowed(kind: byte, n: nat) {
    match kind
    case 5 => n == GLYPH_PAYLOAD
    case 6 => 2 <= n < GLYPH_PAYLOAD
    case 7 => n == 2
    case 8 => 3 <= n <= GLYPH_PAYLOAD
    case 9 => 1 <= n <= SHOW_MAX_KEYS
    case 12 => n == 6
    case 13 => 4 <= n <= GLYPH_PAYLOAD
    case 14 => 2 <= n <= 2 * SHOW_MAX_KEYS && n % 2 == 0
    case _ => false
  }

  /** zlib, and the pixels a stream inflates to when it inflates to a whole glyph. */
  datatype Codec = Codec(deflate: seq<byte> -> seq<byte>, inflate: seq<byte> -> Option<seq<byte>>)

  /** The compressor makes a stream, and the inflater undoes it. */
  ghost predicate Inverse(z: Codec) {
    forall p: seq<byte> :: |p| == GLYPH_SIZE ==> z.deflate(p) != [] && z.inflate(z.deflate(p)) == Some(p)
  }

  function Words(b: seq<byte>): (r: seq<word>)
    requires |b| % 2 == 0
    ensures |r| == |b| / 2
  {
    seq(|b| / 2, i requires 0 <= i < |b| / 2 => Join(b[2 * i], b[2 * i + 1]))
  }

  function EvenBytes(b: seq<byte>): (r: seq<byte>)
    requires |b| % 2 == 0
    ensures |r| == |b| / 2
  {
    seq(|b| / 2, i requires 0 <= i < |b| / 2 => b[2 * i])
  }

  function OddBytes(b: seq<byte>): (r: seq<byte>)
    requires |b| % 2 == 0
    ensures |r| == |b| / 2
  {
    seq(|b| / 2, i requires 0 <= i < |b| / 2 => b[2 * i + 1])
  }

  /** The stream that a frame carries for the second core, when it carries one. */
  function StreamOf(f: Frame): Option<seq<byte>>
    requires Allowed(f.kind, |f.payload|)
  {
    if f.kind == 6 then Some(f.payload[1..])
    else if f.kind == 8 && |f.payload| > 3 then Some(f.payload[3..])
    else None
  }

  /** The message of a frame whose stream inflated to `pixels`. */
  function WithPixels(f: Frame, pixels: seq<byte>): Message
    requires Allowed(f.kind, |f.payload|) && StreamOf(f).Some?
  {
    if f.kind == 6 then Glyph(f.payload[0], pixels)
    else StoreFrame(f.payload[0], Join(f.payload[1], f.payload[2]), Some(pixels))
  }

  /** The message of a frame that carries no stream for the second core. */
  function DecodePlain(z: Codec, f: Frame): Option<Message>
    requires Allowed(f.kind, |f.payload|) && StreamOf(f).None?
  {
    var p := f.payload;
    if f.kind == 5 then Some(Glyph(p[0], p[1..]))
    else if f.kind == 7 then Some(BeginBatch(p[0], p[1]))
    else if f.kind == 8 then Some(StoreFrame(p[0], Join(p[1], p[2]), None))
    else if f.kind == 9 then Some(ShowFrames(p))
    else if f.kind == 12 then if p[1] == 1 then Some(KeyState(p[0], Join(p[2], p[3]), p[4], p[5] != 0)) else None
    else if f.kind == 14 then Some(ShowPips(EvenBytes(p), OddBytes(p)))
    else
      var at := 1 + 2 * p[0] as int;
      if !(1 <= p[0] <= MAX_PIP_COLORS) || at >= |p| then None
      else
        match z.inflate(p[at..])
        case None => None
        case Some(pixels) => Some(PipSheet(Words(p[1..at]), pixels))
  }

  /** What the board makes of a whole frame: a message, or nothing when it does not decode. */
  function Decode(z: Codec, f: Frame): Option<Message>
    requires Allowed(f.kind, |f.payload|)
  {
    if StreamOf(f).Some? then
      match z.inflate(StreamOf(f).value)
      case None => None
      case Some(pixels) => Some(WithPixels(f, pixels))
    else DecodePlain(z, f)
  }

  /** The board knows exactly the types that it takes at some length. What it takes fits its buffer of 32769 bytes, and
      has a whole glyph or a stream where its type asks for one. */
  lemma KnownIff(kind: byte)
    ensures Known(kind) <==> exists n :: Allowed(kind, n)
    ensures forall f: Frame :: f.kind == kind && Allowed(kind, |f.payload|) ==>
              && 1 <= |f.payload| <= 32769 && (kind == 5 ==> |f.payload| == 1 + 32768)
              && (StreamOf(f).Some? ==> StreamOf(f).value != [])
  {
    assert Allowed(5, GLYPH_PAYLOAD) && Allowed(6, 2) && Allowed(7, 2) && Allowed(8, 3) && Allowed(9, 1);
    assert Allowed(12, 6) && Allowed(13, 4) && Allowed(14, 2);
  }

  /** The messages of one frame: at most one, and none for a frame the board drops. */
  function MessagesOf(z: Codec, f: Frame): seq<Message> {
    if !Allowed(f.kind, |f.payload|) then []
    else match Decode(z, f) case None => [] case Some(m) => [m]
  }

  function AllMessages(z: Codec, frames: seq<Frame>): seq<Message> {
    if frames == [] then [] else AllMessages(z, frames[..|frames| - 1]) + MessagesOf(z, frames[|frames| - 1])
  }

  // ---- The host ----

  function SplitWords(w: seq<word>): (r: seq<byte>)
    ensures |r| == 2 * |w| && Words(r) == w
  {
    var r: seq<byte> :=
        seq(2 * |w|, i requires 0 <= i < 2 * |w| => if i % 2 == 0 then Low(w[i / 2]) else High(w[i / 2]));
    assert forall i :: 0 <= i < |w| ==>
             (2 * i) / 2 == i && (2 * i + 1) / 2 == i && (2 * i) % 2 == 0 && (2 * i + 1) % 2 == 1;
    assert Words(r) == w;
    r
  }

  function Pairs(a: seq<byte>, b: seq<byte>): (r: seq<byte>)
    requires |a| == |b|
    ensures |r| == 2 * |a| && EvenBytes(r) == a && OddBytes(r) == b
  {
    var r := seq(2 * |a|, i requires 0 <= i < 2 * |a| => if i % 2 == 0 then a[i / 2] else b[i / 2]);
    assert forall i :: 0 <= i < |a| ==>
             (2 * i) / 2 == i && (2 * i + 1) / 2 == i && (2 * i) % 2 == 0 && (2 * i + 1) % 2 == 1;
    assert EvenBytes(r) == a && OddBytes(r) == b;
    r
  }

  predicate SlotsOk(slots: seq<byte>) {
    slots != [] && forall i :: 0 <= i < |slots| ==> slots[i] < SLOT_COUNT || slots[i] == SLOT_UNCHANGED
  }

  /** The frame of a message, or nothing when the host's encoder refuses it. */
  function Encode(z: Codec, m: Message): Option<Frame> {
    match m
    case KeyState(key, color, emoji, blink) =>
      Some(Frame(12, [key, 1, Low(color), High(color), emoji, if blink then 1 else 0]))
    case Glyph(key, pixels) =>
      if |pixels| != GLYPH_SIZE then None
      else if 1 + |z.deflate(pixels)| >= GLYPH_PAYLOAD then Some(Frame(5, [key] + pixels))
      else Some(Frame(6, [key] + z.deflate(pixels)))
    case BeginBatch(glyphs, states) => Some(Frame(7, [glyphs, states]))
    case StoreFrame(slot, color, picture) =>
      if slot >= SLOT_COUNT then None
      else if picture.None? then Some(Frame(8, [slot, Low(color), High(color)]))
      else if |picture.value| != GLYPH_SIZE || |z.deflate(picture.value)| > GLYPH_PAYLOAD - 3 then None
      else Some(Frame(8, [slot, Low(color), High(color)] + z.deflate(picture.value)))
    case ShowFrames(slots) => if SlotsOk(slots) then Some(Frame(9, slots)) else None
    case PipSheet(colors, pixels) =>
      if !(1 <= |colors| <= MAX_PIP_COLORS) || |pixels| != GLYPH_SIZE then None
      else
        var payload := [|colors| as byte] + SplitWords(colors) + z.deflate(pixels);
        if |payload| > GLYPH_PAYLOAD - 1 then None else Some(Frame(13, payload))
    case ShowPips(slots, counts) =>
      if SlotsOk(slots) && |counts| == |slots| then Some(Frame(14, Pairs(slots, counts))) else None
  }

  /** What the host can send: a slot of the 52, a picture of 32768 bytes whose stream is no longer than that, a Show
      that names slots, one count for each of them, and 1 to 8 colors for the pips. */
  predicate HasFrame(z: Codec, m: Message) {
    match m
    case KeyState(_, _, _, _) => true
    case BeginBatch(_, _) => true
    case Glyph(_, pixels) => |pixels| == 32768
    case StoreFrame(slot, _, picture) =>
      slot < 52 && (picture.None? || (|picture.value| == 32768 && |z.deflate(picture.value)| + 3 <= 32769))
    case ShowFrames(slots) => slots != [] && forall s :: s in slots ==> s < 52 || s == 255
    case ShowPips(slots, counts) =>
      slots != [] && |counts| == |slots| && forall s :: s in slots ==> s < 52 || s == 255
    case PipSheet(colors, pixels) =>
      1 <= |colors| <= 8 && |pixels| == 32768 && 1 + 2 * |colors| + |z.deflate(pixels)| <= 32768
  }

  /** The host's encoder refuses every other message, and but for a Show its frames are never too long. */
  lemma EncodeIff(z: Codec, m: Message)
    ensures Encode(z, m).Some? <==> HasFrame(z, m)
    ensures Encode(z, m).Some? && !m.ShowFrames? && !m.ShowPips? ==> |Encode(z, m).value.payload| <= 32769
  {
    hide Pairs, SplitWords;
    if m.ShowFrames? || m.ShowPips? {
      assert forall i :: 0 <= i < |m.slots| ==> m.slots[i] in m.slots;
    }
  }

  /** The board's reader takes at most 32 keys in one Show. */
  predicate FewKeys(m: Message) {
    (m.ShowFrames? ==> |m.slots| <= SHOW_MAX_KEYS) && (m.ShowPips? ==> |m.slots| <= SHOW_MAX_KEYS)
  }

  lemma JoinSplit(w: word)
    ensures Join(Low(w), High(w)) == w
  {
  }

  /** The board decodes what the host encodes; a Show of more than 32 keys is the one thing it drops. */
  lemma DecodeEncode(z: Codec, m: Message)
    requires Inverse(z) && Encode(z, m).Some?
    requires |Encode(z, m).value.payload| < 65536
    ensures MessagesOf(z, Encode(z, m).value) == if FewKeys(m) then [m] else []
  {
    hide SplitWords, Pairs, Words, EvenBytes, OddBytes, Low, High, Join;
    var f := Encode(z, m).value;
    match m
    case KeyState(_, color, _, _) => JoinSplit(color);
    case StoreFrame(_, color, picture) =>
      JoinSplit(color);
      if picture.Some? {
        assert f.payload[3..] == z.deflate(picture.value);
      }
    case Glyph(_, pixels) =>
      assert f.payload[1..] == pixels || f.payload[1..] == z.deflate(pixels);
    case PipSheet(colors, pixels) =>
      var at := 1 + 2 * |colors|;
      assert f.payload[1..at] == SplitWords(colors) && f.payload[at..] == z.deflate(pixels);
    case _ =>
  }
}
