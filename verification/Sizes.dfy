// The numbers that host and board must agree on: driver/transport/frames.go, driver/layers/doc.go,
// firmware/wire.py and firmware/frame_cache.py.
module Sizes {
  /** The displays of the pad. */
  const KEY_COUNT := 6
  /** The slots of the board's frame cache. */
  const SLOT_COUNT := 52
  /** What a Show names for a key that it leaves alone. */
  const SLOT_UNCHANGED := 255
  /** A glyph of 128 by 128 pixels, two bytes each. */
  const PIXELS := 16384
  const GLYPH_SIZE := 32768
  /** The emoji id of a key that shows a custom glyph. */
  const SENTINEL_EMOJI := 254
}
