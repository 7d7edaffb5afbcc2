// firmware/display_render.py: the frames of one key, kept between draws.
module Drawing {
  import opened Bits
  import opened Sizes
  import Wire

  type word = Wire.word

  const BLINK_OFF_COLOR: word := 0

  /** Where two zero bytes next start, from `start` on, or -1: `bytes.find`. */
  function Find(b: seq<byte>, start: nat): (r: int)
    ensures r == -1 || start <= r < |b| - 1
    decreases |b| - start
  {
    if start + 1 >= |b| then -1
    else if b[start] == 0 && b[start + 1] == 0 then start
    else Find(b, start + 1)
  }

  lemma {:induction false} FindIsFirst(b: seq<byte>, start: nat)
    ensures var r := Find(b, start);
            && (r >= 0 ==> b[r] == 0 && b[r + 1] == 0)
            && forall i :: start <= i < |b| - 1 && (r < 0 || i < r) ==> b[i] != 0 || b[i + 1] != 0
    decreases |b| - start
  {
    if start + 1 < |b| && !(b[start] == 0 && b[start + 1] == 0) {
      FindIsFirst(b, start + 1);
    }
  }

  /** Pixel `i` lets the background show through. */
  predicate Clear(b: seq<byte>, i: nat)
    requires 2 * i + 1 < |b|
  {
    b[2 * i] == 0 && b[2 * i + 1] == 0
  }

  ghost predicate SeeThrough(b: seq<byte>) {
    exists i: nat :: 2 * i + 1 < |b| && Clear(b, i)
  }

  /** `_has_transparent_pixel`: the search for a pair of zero bytes at an even place is the scan of all
      the pixels. */
  method HasTransparentPixel(b: seq<byte>) returns (r: bool)
    ensures r <==> SeeThrough(b)
  {
    var start := 0;
    while true
      invariant forall i: nat :: 2 * i + 1 < |b| && 2 * i < start ==> !Clear(b, i)
      decreases |b| - start
    {
      var found := Find(b, start);
      FindIsFirst(b, start);
      if found < 0 {
        return false;
      }
      if found % 2 == 0 {
        assert Clear(b, found / 2);
        return true;
      }
      forall i: nat | 2 * i + 1 < |b| && 2 * i < found + 1
        ensures !Clear(b, i)
      {
        assert 2 * i != found;
      }
      start := found + 1;
    }
  }

  function Swap16(w: word): word {
    Wire.Join(Wire.High(w), Wire.Low(w))
  }

  function Pixel(color: word, glyph: Option<seq<byte>>, i: nat): word
    requires glyph.Some? ==> 2 * i + 1 < |glyph.value|
  {
    if glyph.Some? && Wire.Join(glyph.value[2 * i], glyph.value[2 * i + 1]) != 0
    then Wire.Join(glyph.value[2 * i], glyph.value[2 * i + 1])
    else Swap16(color)
  }

  /** `compose_into`: a 16-bit bitmap filled with the color, then the glyph over it but for its transparent
      value. */
  function Compose(color: word, glyph: Option<seq<byte>>): (r: seq<word>)
    requires glyph.Some? ==> |glyph.value| == 2 * PIXELS
    ensures |r| == PIXELS
  {
    seq<word>(PIXELS, i requires 0 <= i < PIXELS => Pixel(color, glyph, i))
  }

  /** The two bytes that the DMA sends of a pixel: its low one first. */
  function OnWire(frame: seq<word>, i: nat): (byte, byte)
    requires i < |frame|
  {
    (Wire.Low(frame[i]), Wire.High(frame[i]))
  }

  /** The panel gets the glyph's own bytes where it has a pixel, and the big-endian color elsewhere. */
  lemma PanelSees(color: word, glyph: Option<seq<byte>>, i: nat)
    requires (glyph.Some? ==> |glyph.value| == 2 * PIXELS) && i < PIXELS
    ensures OnWire(Compose(color, glyph), i) ==
            if glyph.Some? && !Clear(glyph.value, i) then (glyph.value[2 * i], glyph.value[2 * i + 1])
            else (Wire.High(color), Wire.Low(color))
  {
  }

  /** What a panel is handed: a bitmap built here, or the view of a buffer of the frame cache. */
  datatype Frame = Built(pixels: seq<word>) | View(buffer: nat)

  /** A glyph is a bytes object: two are the same glyph when they are the same object. */
  class Glyph {
    const data: seq<byte>

    constructor (data: seq<byte>)
      ensures this.data == data
    {
      this.data := data;
    }
  }

  ghost predicate Whole(g: Glyph?) {
    g != null ==> |g.data| == 2 * PIXELS
  }

  function Data(g: Glyph?): Option<seq<byte>> {
    if g == null then None else Some(g.data)
  }

  ghost predicate Transparent(g: Glyph?) {
    g == null || SeeThrough(g.data)
  }

  /** The blink's off frame: the glyph over black, or the color alone under a glyph that hides it. */
  ghost function OffLook(color: word, g: Glyph?): Frame
    requires Whole(g)
  {
    if Transparent(g) then Built(Compose(BLINK_OFF_COLOR, Data(g))) else Built(Compose(color, None))
  }

  /** The frame that a key with this color and glyph shows, drawn afresh. */
  ghost function Look(color: word, g: Glyph?, blink: bool, blinkOn: bool): Frame
    requires Whole(g)
  {
    if blinkOn || !blink then Built(Compose(color, Data(g))) else OffLook(color, g)
  }

  /** The kept frame that a key shows. */
  ghost function Showing(s: KeyState): Frame
    requires s.onFrame.Some? && (s.blinkVisible || s.offFrame.Some?)
    reads s
  {
    if s.blinkVisible then s.onFrame.value else s.offFrame.value
  }

  class KeyState {
    var emojiId: byte
    var color: word
    var blink: bool
    var pixels: Glyph?
    // What the kept frames were built from.
    var frameColor: word
    var framePixels: Glyph?
    var onFrame: Option<Frame>
    var offFrame: Option<Frame>
    var transparentGlyph: bool
    var blinkVisible: bool
    // `onFrame` is a buffer of the frame cache.
    var cached: bool

    constructor (emojiId: byte, color: word)
      ensures Valid() && !cached && !blink && pixels == null && this.color == color && this.emojiId == emojiId
    {
      this.emojiId, this.color, blink, pixels := emojiId, color, false, null;
      frameColor, framePixels, onFrame, offFrame := 0, null, None, None;
      transparentGlyph, blinkVisible, cached := true, false, false;
    }

    /** The kept frames are those of the color and glyph they were built from. */
    ghost predicate Valid()
      reads this
    {
      && Whole(pixels) && Whole(framePixels)
      && (cached ==> onFrame.Some? && framePixels == null)
      && (onFrame.Some? ==> transparentGlyph == Transparent(framePixels)
                            && (offFrame.Some? ==> offFrame.value == OffLook(frameColor, framePixels)))
      && (onFrame.Some? && !cached ==> onFrame.value == Built(Compose(frameColor, Data(framePixels))))
    }

    /** The kept frames are those of the key as it is now. */
    ghost predicate Fresh()
      reads this
    {
      onFrame.Some? && frameColor == color && framePixels == pixels && (blink ==> offFrame.Some?)
    }

    /** `_build_frames`: afterwards the frames are those of the current color and glyph. Only a key that
        shows a cached frame, and whose color and glyph did not change, keeps that frame. */
    method BuildFrames()
      requires Valid()
      modifies this`frameColor, this`framePixels, this`onFrame, this`offFrame, this`transparentGlyph, this`cached
      ensures Valid() && Fresh()
      ensures cached == (old(cached) && old(frameColor) == color && pixels == null)
      ensures cached ==> onFrame == old(onFrame)
    {
      hide Compose, SeeThrough;
      var glyphChanged := onFrame.None? || pixels != framePixels;
      if glyphChanged {
        if pixels == null {
          transparentGlyph := true;
        } else {
          transparentGlyph := HasTransparentPixel(pixels.data);
        }
      }
      if glyphChanged || color != frameColor {
        onFrame := Some(Built(Compose(color, Data(pixels))));
        offFrame := None;
        frameColor, framePixels, cached := color, pixels, false;
      }
      if !blink {
        offFrame := None;
      } else if offFrame.None? {
        offFrame := Some(Built(if transparentGlyph then Compose(BLINK_OFF_COLOR, Data(pixels))
            else Compose(color, None)));
      }
    }

    /** `render_key`: the frame for the asked blink phase. For a key that shows no cached frame it is the
        one drawn afresh from its color and glyph, whatever came before. */
    method RenderKey(blinkOn: bool) returns (frame: Frame)
      requires Valid()
      modifies this`frameColor, this`framePixels, this`onFrame, this`offFrame, this`transparentGlyph, this`cached
      modifies this`blinkVisible
      ensures Valid() && Fresh() && blinkVisible == (blinkOn || !blink)
      ensures cached == (old(cached) && old(frameColor) == color && pixels == null)
      ensures frame == Showing(this) && (cached ==> onFrame == old(onFrame))
      ensures !cached ==> frame == Look(color, pixels, blink, blinkOn)
      ensures cached && !blinkVisible ==> frame == OffLook(color, null)
    {
      BuildFrames();
      blinkVisible := blinkOn || !blink;
      frame := if blinkVisible then onFrame.value else offFrame.value;
    }

    /** `show_cached`: the key shows a buffer of the frame cache, composed over `c`. */
    method ShowCached(frame: Frame, c: word, emoji: byte)
      modifies this
      ensures Valid() && Fresh() && cached && onFrame == Some(frame)
      ensures color == c && emojiId == emoji && !blink && pixels == null && blinkVisible
    {
      color, emojiId, blink, pixels := c, emoji, false, null;
      onFrame, offFrame, frameColor, framePixels := Some(frame), None, c, null;
      transparentGlyph, blinkVisible, cached := true, true, true;
    }

    /** `drop_cached`. */
    method DropCached()
      requires Valid()
      modifies this`cached, this`onFrame
      ensures Valid() && !cached && (old(cached) ==> onFrame == None) && (!old(cached) ==> onFrame == old(onFrame))
    {
      if cached {
        cached, onFrame := false, None;
      }
    }

    /** What a key state does to the key: any emoji but the sentinel takes its picture away. */
    method Told(c: word, emoji: byte, b: bool)
      requires Valid()
      modifies this
      ensures Valid() && color == c && emojiId == emoji && blink == b
      ensures if emoji == SENTINEL_EMOJI then pixels == old(pixels) && cached == old(cached) && onFrame == old(onFrame)
              else pixels == null && !cached
      ensures frameColor == old(frameColor)
    {
      color, emojiId, blink := c, emoji, b;
      if emoji != SENTINEL_EMOJI {
        pixels := null;
        DropCached();
      }
    }

    /** What a Set custom glyph does to the key: its picture is a new object. */
    method Given(data: seq<byte>)
      requires Valid() && |data| == 2 * PIXELS
      modifies this`emojiId, this`pixels
      ensures Valid() && emojiId == SENTINEL_EMOJI && pixels != null && fresh(pixels) && pixels.data == data
    {
      emojiId := SENTINEL_EMOJI;
      pixels := new Glyph(data);
    }

    predicate BlinkIsDue(blinkOn: bool)
      reads this
    {
      blink && blinkVisible != blinkOn
    }
  }

  /** A key that was drawn shows its color and glyph, drawn afresh, unless it shows a cached frame. */
  lemma ShownIsFresh(s: KeyState)
    requires s.Valid() && s.Fresh() && (s.blinkVisible || s.blink) && !s.cached
    ensures Showing(s) == Look(s.color, s.pixels, s.blink, s.blinkVisible)
  {
  }

  /** Any key that keeps a frame of the cache, and then gets a key state that keeps its picture: it keeps the frame only
      when the state names the color the frame was composed over, and the key has no picture of its own. Otherwise it
      is drawn afresh: without a picture it turns plain. */
  method ToldThenDrawn(s: KeyState, newColor: word, blink: bool, blinkOn: bool) returns (frame: Frame)
    requires s.Valid() && s.cached && s.onFrame.value.View?
    modifies s
    ensures s.Valid() && s.color == newColor && s.pixels == old(s.pixels) && s.blink == blink
    ensures s.cached <==> newColor == old(s.frameColor) && old(s.pixels) == null
    ensures frame == old(s.onFrame.value) <==> s.cached && (blinkOn || !blink)
    ensures !s.cached ==> frame == Look(newColor, s.pixels, blink, blinkOn)
    ensures s.cached && blink && !blinkOn ==> frame == OffLook(newColor, null)
  {
    s.Told(newColor, SENTINEL_EMOJI, blink);
    frame := s.RenderKey(blinkOn);
  }
}
