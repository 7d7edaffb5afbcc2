// firmware/app.py: the main loop's drawing. Key states, Begin batches and the frame cache meet the push
// queue here.
module Pad {
  import opened Bits
  import opened Sizes
  import opened Bus
  import opened PushQueue
  import opened Drawing
  import Wire

  const BLINK_INTERVAL_US := 500_000
  const BATCH_TIMEOUT_US := 2_000_000
  const BATCH_NUDGE_US := 500_000
  const BATCH_NUDGES := 3
  const DEFAULT_EMOJI: byte := 0
  const PIP_BUFFERS := 12

  /** The blink phase of a moment: on in the even slots of the clock. */
  function Phase(nowUs: nat): bool {
    (nowUs / BLINK_INTERVAL_US) % 2 == 0
  }

  /** Half a second on, half a second off, by the clock alone. */
  lemma PhaseTurns(second: nat, us: nat)
    requires us < 500_000
    ensures Phase(1_000_000 * second + us) && !Phase(1_000_000 * second + 500_000 + us)
  {
    HalfSeconds(2 * second, us);
    HalfSeconds(2 * second + 1, us);
  }

  lemma HalfSeconds(n: nat, us: nat)
    requires us < 500_000
    ensures (500_000 * n + us) / 500_000 == n
  {
  }

  /** The keys of a mask, below the number of keys of this pad. */
  function KeysIn(mask: byte, n: nat): (r: set<nat>)
    ensures forall k :: k in r ==> k < n
  {
    set k | k in KeysBelow(n) && Shr(mask, k) % 2 == 1
  }

  /** An open Begin batch. */
  datatype Batch = Batch(keys: set<nat>, lastUs: nat, nudges: nat, pendingGlyph: set<nat>, pendingState: set<nat>,
                         deadlineUs: nat, touched: set<nat>)

  /** The reader hands on only whole glyphs. */
  predicate WholeGlyphs(m: Wire.Message) {
    (m.Glyph? ==> |m.pixels| == 2 * PIXELS) && (m.StoreFrame? && m.picture.Some? ==> |m.picture.value| == 2 * PIXELS)
    && (m.ShowPips? ==> |m.counts| == |m.slots|)
  }

  /** firmware/frame_cache.py: 52 slots, then two pip buffers for each of six keys. */
  class FrameCache {
    var buffers: seq<seq<word>>
    var colors: seq<word>
    var hasGlyph: seq<bool>
    var filled: seq<bool>
    var hasSheet: bool
    // How often a buffer changed while a push that reads it was queued or on the wire.
    ghost var torn: nat

    constructor ()
      ensures Valid() && torn == 0 && Now() == EmptyStock()
    {
      buffers := seq(SLOT_COUNT + PIP_BUFFERS, _ => []);
      colors, hasGlyph, filled, hasSheet :=
          seq(SLOT_COUNT, _ => 0), seq(SLOT_COUNT, _ => false), seq(SLOT_COUNT, _ => false), false;
      torn := 0;
    }

    function Now(): Stock
      requires Valid()
      reads this
    {
      Stock(colors, hasGlyph, filled, buffers[..SLOT_COUNT], hasSheet)
    }

    predicate Valid()
      reads this
    {
      |buffers| == SLOT_COUNT + PIP_BUFFERS && |colors| == |hasGlyph| == |filled| == SLOT_COUNT
    }

    method Store(slot: nat, color: word, picture: Option<seq<byte>>, ghost inUse: bool)
      requires Valid() && slot < SLOT_COUNT && (picture.Some? ==> |picture.value| == 2 * PIXELS)
      modifies this
      ensures Valid() && torn == old(torn) + (if inUse then 1 else 0)
      ensures buffers == old(buffers)[slot := Compose(color, picture)] && filled == old(filled)[slot := true]
      ensures colors == old(colors)[slot := color] && hasGlyph == old(hasGlyph)[slot := picture.Some?]
      ensures hasSheet == old(hasSheet)
    {
      buffers := buffers[slot := Compose(color, picture)];
      colors, hasGlyph, filled := colors[slot := color], hasGlyph[slot := picture.Some?], filled[slot := true];
      torn := torn + if inUse then 1 else 0;
    }

    /** A copy of the slot with a pip on it, whose drawing is left open. */
    method Stamp(buffer: nat, slot: nat, ghost inUse: bool)
      requires Valid() && SLOT_COUNT <= buffer < SLOT_COUNT + PIP_BUFFERS && slot < SLOT_COUNT
      modifies this`buffers, this`torn
      ensures Valid() && torn == old(torn) + (if inUse then 1 else 0)
              && buffers[..SLOT_COUNT] == old(buffers[..SLOT_COUNT])
    {
      var stamped: seq<word> := *;
      buffers := buffers[buffer := stamped];
      torn := torn + if inUse then 1 else 0;
    }
  }

  datatype Appearance = Appearance(color: word, emoji: byte, blink: bool, picture: Glyph?)

  /** What a key is to show. */
  datatype Face = Face(color: word, emoji: byte, blink: bool, picture: Option<seq<byte>>)

  /** The slots of the frame cache, and whether it has a pip sheet. */
  datatype Stock = Stock(colors: seq<word>, hasGlyph: seq<bool>, filled: seq<bool>, pictures: seq<seq<word>>,
      sheet: bool)

  /** What an open batch waits for. */
  datatype Wait = Wait(keys: set<nat>, glyphs: set<nat>, states: set<nat>, deadlineUs: nat)

  /** All that the messages of the host decide: each key's face, which of its two pip buffers is next, the slots, and
      the open batch. */
  datatype Scene = Scene(faces: seq<Face>, pips: seq<nat>, stock: Stock, wait: Option<Wait>)

  datatype Image = Image(look: Appearance, onFrame: Option<Frame>, offFrame: Option<Frame>, visible: bool, cached: bool,
                         newest: Option<nat>)

  class MacroPad {
    const n: nat
    const pad: Pushes<Frame>
    const keys: seq<KeyState>
    const cache: FrameCache
    var dirty: set<nat>
    var batch: Option<Batch>
    var pipNext: seq<nat>
    // How many batches were opened, and how many frames were submitted before the open one.
    ghost var batches: nat
    ghost var mark: nat

    constructor (n: nat)
      ensures Valid() && this.n == n && batch == None && pad.history == [] && dirty == KeysBelow(n) && pad.active == []
      ensures SceneNow() == Blank(n)
      ensures fresh(keys) && fresh(pad) && fresh(cache) && fresh(pad.panels) && fresh(pad.bus) && fresh(pad.lines)
    {
      var states := NewKeys(n);
      this.n, keys, dirty, batch, pipNext := n, states, KeysBelow(n), None, seq(n, _ => 0);
      pad := new Pushes(n);
      cache := new FrameCache();
      batches, mark := 0, 0;
      new;
      assert SceneNow().faces == Blank(n).faces;
    }

    static method NewKeys(n: nat) returns (states: seq<KeyState>)
      ensures |states| == n && fresh(states) && forall j :: 0 <= j < n ==> states[j].Valid()
      ensures forall j :: 0 <= j < n ==>
                states[j].color == 0 && states[j].emojiId == DEFAULT_EMOJI && !states[j].blink
                    && states[j].pixels == null
      ensures forall j, k :: 0 <= j < k < n ==> states[j] != states[k]
    {
      states := [];
      for i := 0 to n
        invariant |states| == i && fresh(states) && forall j :: 0 <= j < i ==> states[j].Valid()
        invariant forall j :: 0 <= j < i ==>
                    states[j].color == 0 && states[j].emojiId == DEFAULT_EMOJI && !states[j].blink
                        && states[j].pixels == null
        invariant forall j, k :: 0 <= j < k < i ==> states[j] != states[k]
      {
        var s := new KeyState(DEFAULT_EMOJI, 0);
        states := states + [s];
      }
    }

    ghost predicate Base()
      reads this, pad, pad.bus, pad.lines, pad.panels, keys, cache
    {
      && pad.Valid() && pad.n == n == |keys| == |pipNext| == |pad.tracks| && cache.Valid()
      && (forall i :: 0 <= i < n ==> pipNext[i] <= 1)
      && (forall i, j :: 0 <= i < j < n ==> keys[i] != keys[j])
      && (forall i :: 0 <= i < n ==> keys[i].Valid())
      && (forall k :: k in dirty ==> k < n)
      && (batch.Some? ==> batch.value.touched <= batch.value.keys) && BatchOk()
    }

    /** No frame built since the batch opened is queued, or on the wire, for a key that it holds. */
    ghost predicate BatchOk()
      reads this`batch, this`mark, pad
    {
      batch.Some? ==>
        var b := batch.value;
        && |pad.tracks| == n
        && (forall k :: k in b.keys ==> k < n && Older(pad.tracks[k], mark))
        && b.pendingGlyph <= b.keys && b.pendingState <= b.keys
        && b.nudges <= BATCH_NUDGES && mark <= |pad.history|
    }

    /** The newest frame submitted for the key is the one its state shows. */
    ghost predicate Drawn(k: nat)
      reads pad, keys
    {
      k < |keys| == |pad.tracks| &&
      var s, t := keys[k], pad.tracks[k];
      && s.Valid() && s.Fresh() && (s.blinkVisible || s.blink)
      && t.newest.Some? && t.newest.value < |pad.history| && pad.history[t.newest.value].1 == Showing(s)
    }

    /** Drawn, and in the asked blink phase. */
    ghost predicate Current(k: nat, blinkOn: bool)
      reads pad, keys
    {
      Drawn(k) && keys[k].blinkVisible == (blinkOn || !keys[k].blink)
    }

    /** The keys that need not be drawn: those changed since the last pass, and those a batch holds back. */
    ghost function Owed(): set<nat>
      reads this
    {
      dirty + if batch.Some? then batch.value.touched else {}
    }

    ghost predicate Valid()
      reads this, pad, pad.bus, pad.lines, pad.panels, keys, cache
    {
      Base() && forall k :: 0 <= k < n && k !in Owed() ==> Drawn(k)
    }

    ghost function LookOf(k: nat): Appearance
      requires k < |keys|
      reads keys
    {
      var s := keys[k];
      Appearance(s.color, s.emojiId, s.blink, s.pixels)
    }

    ghost function FaceOf(k: nat): Face
      requires k < |keys|
      reads keys
    {
      var l := LookOf(k);
      Face(l.color, l.emoji, l.blink, Data(l.picture))
    }

    /** What the key shows, and its newest frame. */
    ghost function ImageOf(k: nat): Image
      requires k < |keys| == |pad.tracks|
      reads keys, pad
    {
      var s := keys[k];
      Image(LookOf(k), s.onFrame, s.offFrame, s.blinkVisible, s.cached, pad.tracks[k].newest)
    }

    /** `render_key` for one key, into the queue. */
    method Render(k: nat, blinkOn: bool)
      requires Base() && k < n && (batch.Some? ==> k !in batch.value.keys)
      modifies keys[k], pad`queue, pad`queued, pad`history, pad`tracks
      ensures Base() && Current(k, blinkOn)
      ensures pad.tracks[k].waiting == Some(|old(pad.history)|) && |pad.history| == |old(pad.history)| + 1
      ensures forall j :: 0 <= j < n && j != k ==> (old(Drawn(j)) ==> Drawn(j)) && pad.tracks[j] == old(pad.tracks[j])
      ensures forall j :: 0 <= j < n ==> LookOf(j) == old(LookOf(j)) && (j != k ==> ImageOf(j) == old(ImageOf(j)))
      ensures forall j, b :: 0 <= j < n && j != k && old(Current(j, b)) ==> Current(j, b)
    {
      hide Pushes.QueueOk, Pushes.WireOk, InOrder, KeyState.Valid, Compose, SeeThrough;
      var frame := keys[k].RenderKey(blinkOn);
      pad.Submit(k, frame);
    }

    /** `_render_dirty_keys`: every key that no batch holds is drawn when it changed or its blink is due. A
        held key is made ready, and draws at the release. */
    method RenderDirtyKeys(nowUs: nat)
      requires Valid()
      modifies this`dirty, this`batch, keys, pad`queue, pad`queued, pad`history, pad`tracks
      ensures Valid() && dirty == {} && |pad.history| >= |old(pad.history)|
      ensures batch == Touch(old(batch), old(dirty))
      ensures forall k :: 0 <= k < n ==>
                LookOf(k) == old(LookOf(k)) && (k in old(dirty) && !Holds(k) ==> Since(k, |old(pad.history)|))
      ensures forall k :: 0 <= k < n && !Holds(k) ==> Current(k, Phase(nowUs))
    {
      hide Pushes.Valid, KeyState.Valid, BatchOk, Drawn, Current, Phase, Touch, LookOf,
        KeyState.Fresh, FrameCache.Valid, KeysBelow;
      var blinkOn := Phase(nowUs);
      TouchStep(batch, dirty, 0);
      for k := 0 to n
        modifies this`batch, keys, pad`queue, pad`queued, pad`history, pad`tracks
        invariant Base() && dirty == old(dirty) && |pad.history| >= |old(pad.history)|
        invariant batch == Touch(old(batch), dirty * KeysBelow(k))
        invariant forall j :: 0 <= j < n && j !in Owed() && (Holds(j) || j >= k) ==> Drawn(j)
        invariant forall j :: 0 <= j < k && !Holds(j) ==> Current(j, blinkOn)
        invariant forall j :: 0 <= j < n ==> LookOf(j) == old(LookOf(j))
        invariant forall j :: 0 <= j < k && j in dirty && !Holds(j) ==> Since(j, |old(pad.history)|)
      {
        TouchStep(old(batch), dirty, k);
        if Holds(k) {
          if k in dirty {
            Prepare(k);
          }
        } else {
          DrawIfDue(k, blinkOn);
        }
      }
      TouchStep(old(batch), dirty, n);
      assert batch == Touch(old(batch), dirty);
      AllDrawn(blinkOn);
    }

    /** The end of that pass. */
    method AllDrawn(blinkOn: bool)
      requires Base() && forall k :: 0 <= k < n ==> if Holds(k) then k in Owed() || Drawn(k) else Current(k, blinkOn)
      requires batch.Some? ==> forall k :: k in dirty && k in batch.value.keys ==> k in batch.value.touched
      modifies this`dirty
      ensures Valid() && dirty == {}
    {
      hide Pushes.Valid, KeyState.Valid, BatchOk, Drawn;
      forall k | 0 <= k < n && (batch.Some? ==> k !in batch.value.touched)
        ensures Drawn(k)
      {
        assert Holds(k) ==> k !in dirty;
        assert !Holds(k) ==> Current(k, blinkOn);
      }
      dirty := {};
      assert Base();
    }

    predicate Holds(k: nat)
      reads this
    {
      batch.Some? && k in batch.value.keys
    }

    /** `prepare_key`: the frames are built, and nothing is queued. */
    method Prepare(k: nat)
      requires Base() && k < n && Holds(k)
      modifies keys[k], this`batch
      ensures batch == Some(old(batch).value.(touched := old(batch).value.touched + {k})) && keys[k].Fresh()
      ensures Base() && forall j :: 0 <= j < n && j != k ==> (old(Drawn(j)) ==> Drawn(j))
      ensures forall j, b :: 0 <= j < n && j != k && old(Current(j, b)) ==> Current(j, b)
      ensures forall j :: 0 <= j < n ==> LookOf(j) == old(LookOf(j))
    {
      hide Pushes.Valid, KeyState.Valid;
      keys[k].BuildFrames();
      batch := Some(batch.value.(touched := batch.value.touched + {k}));
    }

    /** What a pass does to a key that no batch holds. */
    method DrawIfDue(k: nat, blinkOn: bool)
      requires Base() && k < n && !Holds(k) && (k in dirty || Drawn(k))
      modifies keys[k], pad`queue, pad`queued, pad`history, pad`tracks
      ensures Base() && Current(k, blinkOn) && |pad.history| >= |old(pad.history)|
      ensures forall j :: 0 <= j < n && j != k ==> (old(Drawn(j)) ==> Drawn(j))
      ensures forall j, b :: 0 <= j < n && j != k && old(Current(j, b)) ==> Current(j, b)
      ensures forall j :: 0 <= j < n ==> LookOf(j) == old(LookOf(j)) && (j != k ==> pad.tracks[j] == old(pad.tracks[j]))
      ensures k in dirty ==> Since(k, |old(pad.history)|)
    {
      hide Pushes.Valid, KeyState.Valid, KeyState.Fresh;
      if k in dirty || keys[k].BlinkIsDue(blinkOn) {
        Render(k, blinkOn);
      }
    }

    /** `_release_batch`: the frames of the touched keys are queued in one pass, in the blink phase of this
        moment. */
    method ReleaseBatch(nowUs: nat)
      requires Valid() && batch.Some?
      modifies this`batch, keys, pad`queue, pad`queued, pad`history, pad`tracks
      ensures Valid() && batch == None && |pad.history| >= |old(pad.history)|
      ensures forall k :: k in old(batch).value.touched ==> Current(k, Phase(nowUs)) && Since(k, |old(pad.history)|)
      ensures forall j, b :: 0 <= j < n && j !in old(batch).value.touched && old(Current(j, b)) ==> Current(j, b)
      ensures forall j :: 0 <= j < n ==>
                LookOf(j) == old(LookOf(j)) && (j !in old(batch).value.touched ==> ImageOf(j) == old(ImageOf(j)))
      ensures old(batch).value.touched == {} ==> forall b :: InUse(b) ==> old(InUse(b))
    {
      hide Pushes.Valid, KeyState.Valid, Phase, LookOf, ImageOf, InUse;
      var touched := batch.value.touched;
      batch := None;
      var blinkOn := Phase(nowUs);
      for k := 0 to n
        modifies keys, pad`queue, pad`queued, pad`history, pad`tracks
        invariant Base() && |pad.history| >= |old(pad.history)|
        invariant forall j :: 0 <= j < n && j !in dirty && j !in touched ==> Drawn(j)
        invariant forall j :: 0 <= j < k && j in touched ==> Current(j, blinkOn) && Since(j, |old(pad.history)|)
        invariant forall j, b :: 0 <= j < n && j !in touched && old(Current(j, b)) ==> Current(j, b)
        invariant forall j :: 0 <= j < n ==>
                    LookOf(j) == old(LookOf(j)) && (j !in touched ==> ImageOf(j) == old(ImageOf(j)))
        invariant touched == {} ==> forall b :: InUse(b) ==> old(InUse(b))
      {
        if k in touched {
          Render(k, blinkOn);
        }
      }
    }

    /** The key's newest frame was submitted after the first `before`, and waits in the queue. */
    ghost predicate Since(k: nat, before: nat)
      reads pad
    {
      k < |pad.tracks| && pad.tracks[k].waiting.Some? && pad.tracks[k].waiting.value >= before
    }

    /** `_begin_batch`: an open batch is released, and the frames of the named keys leave the queue. */
    method BeginBatch(glyphs: byte, states: byte, nowUs: nat)
      requires Valid()
      modifies this`batch, this`mark, this`batches, keys, pad`queue, pad`queued, pad`history, pad`tracks
      ensures Valid() && batches == old(batches) + 1 && batch.Some? && mark == |pad.history|
      ensures var b := batch.value;
              && b.keys == KeysIn(glyphs, n) + KeysIn(states, n) && b.lastUs == nowUs && b.nudges == 0
              && b.pendingGlyph == KeysIn(glyphs, n) && b.pendingState == KeysIn(states, n)
                 && b.deadlineUs == nowUs + BATCH_TIMEOUT_US
      ensures forall k :: k in batch.value.keys ==> k < n && pad.tracks[k].waiting == None
      ensures forall k :: 0 <= k < n ==> FaceOf(k) == old(FaceOf(k))
    {
      hide Pushes.Valid, KeyState.Valid, Shr, Drawn, InOrder, KeysIn, Older, KeysBelow;
      if batch.Some? {
        ReleaseBatch(nowUs);
      }
      var held := KeysIn(glyphs, n) + KeysIn(states, n);
      var touched := WithdrawHeld(held);
      Open(Batch(held, nowUs, 0, KeysIn(glyphs, n), KeysIn(states, n), nowUs + BATCH_TIMEOUT_US, touched));
    }

    method Open(b: Batch)
      requires Base() && batch == None && b.touched <= b.keys && b.pendingGlyph <= b.keys && b.pendingState <= b.keys
               && b.nudges == 0
      requires forall k :: k in b.keys ==> k < n && Older(pad.tracks[k], |pad.history|)
      requires forall j :: 0 <= j < n && j !in dirty && j !in b.touched ==> Drawn(j)
      modifies this`batch, this`mark, this`batches
      ensures Valid() && batch == Some(b) && mark == |pad.history| && batches == old(batches) + 1
    {
      hide Pushes.Valid, KeyState.Valid, Drawn, Older;
      batch, mark, batches := Some(b), |pad.history|, batches + 1;
    }

    /** The held keys that have a frame in the queue lose it, and draw at the release. */
    method WithdrawHeld(held: set<nat>) returns (touched: set<nat>)
      requires Valid() && batch == None && forall k :: k in held ==> k < n
      modifies pad`queue, pad`queued, pad`tracks
      ensures Base() && touched <= held && forall j :: 0 <= j < n && j !in dirty && j !in touched ==> Drawn(j)
      ensures forall k :: k in held ==> pad.tracks[k].waiting == None && Older(pad.tracks[k], |pad.history|)
    {
      hide Pushes.QueueOk, Pushes.WireOk, InOrder, KeyState.Valid;
      touched := {};
      for k := 0 to n
        modifies pad`queue, pad`queued, pad`tracks
        invariant Base() && touched <= held
        invariant forall j :: 0 <= j < n && j !in dirty && j !in touched ==> Drawn(j)
        invariant forall j :: 0 <= j < k && j in held ==>
                    pad.tracks[j].waiting == None && Older(pad.tracks[j], |pad.history|)
      {
        if k in held {
          OnWireIsOld(k);
          assert pad.TrackOk(k);
          if pad.queued[k].Some? {
            pad.Withdraw(k);
            touched := touched + {k};
          }
        }
      }
    }

    /** What is on the wire was submitted before. */
    lemma OnWireIsOld(k: nat)
      requires pad.Valid() && k < pad.n
      ensures pad.tracks[k].onWire.Some? ==> pad.tracks[k].onWire.value < |pad.history|
    {
      assert pad.TrackOk(k);
      if pad.tracks[k].onWire.Some? {
        var i :| 0 <= i < |pad.active| && pad.active[i] == k;
      }
    }

    /** `_release_batch_if_done`, which also asks the host for what an idle batch lacks. */
    method ReleaseBatchIfDone(nowUs: nat) returns (nudge: bool)
      requires Valid()
      modifies this`batch, keys, pad`queue, pad`queued, pad`history, pad`tracks
      ensures Valid() && |pad.history| >= |old(pad.history)|
      ensures batch.Some? ==> old(batch).Some? && nowUs < batch.value.deadlineUs && !Complete(batch.value)
      ensures batch.Some? ==>
                batch == if nudge then Some(old(batch).value.(nudges := old(batch).value.nudges + 1, lastUs := nowUs))
                         else old(batch)
      ensures batch.Some? ==>
                nudge == (old(batch).value.nudges < BATCH_NUDGES && nowUs - old(batch).value.lastUs >= BATCH_NUDGE_US)
      ensures nudge ==> batch.Some?
      ensures WaitOf(batch) == DoneAt(WaitOf(old(batch)), nowUs)
      ensures batch.Some? <==>
                old(batch).Some? && nowUs < old(batch).value.deadlineUs
                && (old(batch).value.pendingGlyph != {} || old(batch).value.pendingState != {})
      ensures old(batch).Some? && batch.None? ==>
                forall k :: k in old(batch).value.touched ==> Current(k, Phase(nowUs)) && Since(k, |old(pad.history)|)
      ensures forall k, b :: 0 <= k < n && old(Current(k, b)) && (old(batch).Some? ==> k !in old(batch).value.keys) ==>
                Current(k, b)
      ensures forall k :: 0 <= k < n ==> FaceOf(k) == old(FaceOf(k))
    {
      hide Pushes.Valid, KeyState.Valid, Phase;
      nudge := false;
      if batch.None? {
        return;
      }
      var b := batch.value;
      if Complete(b) || nowUs >= b.deadlineUs {
        ReleaseBatch(nowUs);
      } else if b.nudges < BATCH_NUDGES && nowUs - b.lastUs >= BATCH_NUDGE_US {
        batch := Some(b.(nudges := b.nudges + 1, lastUs := nowUs));
        nudge := true;
      }
    }

    /** `_apply_key_state`: false when the key does not exist. */
    method ApplyKeyState(m: Wire.Message, nowUs: nat) returns (changed: bool)
      requires Valid() && m.KeyState?
      modifies this`dirty, this`batch, keys
      ensures Valid() && changed == (m.key < n) && Shrinks(old(batch), batch)
      ensures changed ==> dirty == old(dirty) + {m.key as nat} && (batch.Some? ==> m.key !in batch.value.pendingState)
      ensures changed && batch.Some? ==> batch.value.lastUs == nowUs
      ensures changed ==>
                var s := keys[m.key];
                && s.color == m.color && s.emojiId == m.emoji && s.blink == m.blink
                && (if m.emoji == SENTINEL_EMOJI then s.pixels == old(keys[m.key].pixels)
                    && s.onFrame == old(keys[m.key].onFrame)
                    else s.pixels == null && !s.cached)
      ensures forall j :: 0 <= j < n && j != m.key ==> unchanged(keys[j])
      ensures forall k :: 0 <= k < n ==> FaceOf(k) == FaceHeard(old(FaceOf(k)), 0, k, m, EmptyStock()).0
      ensures WaitOf(batch) == WaitHeard(WaitOf(old(batch)), m, nowUs, n)
    {
      hide Pushes.Valid, KeyState.Valid, Drawn, BatchOk;
      NotAwaited(m.key);
      if m.key >= n {
        return false;
      }
      keys[m.key].Told(m.color, m.emoji, m.blink);
      OthersStay(m.key);
      NoteChange(m.key, false, nowUs);
      return true;
    }

    /** A Set custom glyph for one key: false when the key does not exist. */
    method ApplyGlyph(m: Wire.Message, nowUs: nat) returns (changed: bool)
      requires Valid() && m.Glyph? && WholeGlyphs(m)
      modifies this`dirty, this`batch, keys
      ensures Valid() && changed == (m.key < n) && Shrinks(old(batch), batch)
      ensures changed ==> dirty == old(dirty) + {m.key as nat} && (batch.Some? ==> m.key !in batch.value.pendingGlyph)
      ensures changed && batch.Some? ==> batch.value.lastUs == nowUs
      ensures changed ==>
                var s := keys[m.key];
                && s.pixels != null && s.pixels.data == m.pixels && s.emojiId == SENTINEL_EMOJI
                && s.color == old(keys[m.key].color) && s.blink == old(keys[m.key].blink)
      ensures forall j :: 0 <= j < n && j != m.key ==> unchanged(keys[j])
      ensures forall k :: 0 <= k < n ==> FaceOf(k) == FaceHeard(old(FaceOf(k)), 0, k, m, EmptyStock()).0
      ensures WaitOf(batch) == WaitHeard(WaitOf(old(batch)), m, nowUs, n)
    {
      hide Pushes.Valid, KeyState.Valid, Drawn, BatchOk;
      NotAwaited(m.key);
      if m.key >= n {
        return false;
      }
      keys[m.key].Given(m.pixels);
      OthersStay(m.key);
      NoteChange(m.key, true, nowUs);
      return true;
    }

    /** A batch waits for no key that does not exist. */
    lemma NotAwaited(k: nat)
      requires Valid()
      ensures k >= n && batch.Some? ==>
                batch.value.pendingGlyph - {k} == batch.value.pendingGlyph
                    && batch.value.pendingState - {k} == batch.value.pendingState
    {
    }

    /** A key that changed is to be drawn, and an open batch no longer waits for what came. */
    method NoteChange(k: nat, glyph: bool, nowUs: nat)
      requires Base() && k < n && forall j :: 0 <= j < n && j !in Owed() && j != k ==> Drawn(j)
      modifies this`dirty, this`batch
      ensures Valid() && dirty == old(dirty) + {k} && Shrinks(old(batch), batch)
      ensures batch.Some? ==> k !in if glyph then batch.value.pendingGlyph else batch.value.pendingState
      ensures batch.Some? ==> batch.value.lastUs == nowUs
      ensures WaitOf(batch) == Noticed(WaitOf(old(batch)), k, glyph)
    {
      hide Pushes.Valid, KeyState.Valid, Drawn;
      dirty := dirty + {k};
      if batch.Some? {
        var b := batch.value;
        batch := Some(if glyph then b.(pendingGlyph := b.pendingGlyph - {k}, lastUs := nowUs)
                      else b.(pendingState := b.pendingState - {k}, lastUs := nowUs));
      }
    }

    /** Changing one key's state leaves every other key as it was drawn. */
    twostate lemma OthersStay(k: nat)
      requires k < n && old(Base()) && unchanged(this) && unchanged(pad) && forall j :: 0 <= j < n && j != k ==>
                 unchanged(keys[j])
      ensures forall j :: 0 <= j < n && j != k && old(Drawn(j)) ==> Drawn(j)
    {
    }

    /** `_service_pushes`: it draws nothing, forgets nothing, and leaves the bus free only when nothing waits. */
    method Service()
      requires Valid()
      modifies pad, pad.panels, pad.bus, pad.lines
      ensures Valid() && pad.history == old(pad.history) && (pad.active != [] || pad.queue == [])
      ensures forall k, b :: 0 <= k < n && old(Current(k, b)) ==> Current(k, b)
      ensures forall k :: 0 <= k < n ==> ImageOf(k) == old(ImageOf(k))
      ensures forall b :: InUse(b) ==> old(InUse(b))
    {
      hide Pushes.Valid, KeyState.Valid;
      var first: Look, later: seq<Look> := *, *;
      ghost var before := pad.tracks;
      forall b ensures InUse(b) <==> Among(before, pad.history, View(b)) {
        pad.WaitingIsTracked(View(b));
      }
      pad.ServicePushes([first] + later);
      forall b | InUse(b) ensures old(InUse(b)) {
        pad.WaitingIsTracked(View(b));
        ServicedAmong(before, pad.tracks, pad.history, View(b));
      }
    }

    /** Service, when it starts a group. */
    method StartPushes()
      requires Valid() && pad.active == [] && pad.queue != []
      modifies pad, pad.panels, pad.bus, pad.lines
      ensures Valid() && pad.active == old(pad.queue)[..PushQueue.Batch(|old(pad.queue)|)]
      ensures pad.queue == old(pad.queue)[|pad.active|..]
    {
      hide Pushes.QueueOk, Pushes.WireOk, Pushes.TrackOk, KeyState.Valid, InOrder;
      pad.StartGroup();
    }

    /** Service, when it looks at the group on the wire. */
    method EndPushes(look: Look) returns (done: bool)
      requires Valid() && pad.active != []
      modifies pad, pad.panels, pad.bus, pad.lines
      ensures Valid()
      ensures forall k :: 0 <= k < n && old(pad.queued[k]).None? ==>
                (pad.queued[k].Some? <==> k in old(pad.active) && Ends(look, old(pad.bus.cleared)) && !EndsWell(look))
    {
      hide Pushes.QueueOk, Pushes.WireOk, Pushes.TrackOk, KeyState.Valid, InOrder;
      done := pad.GroupDone(look);
    }

    /** A push that reads this buffer is queued or on the wire. */
    ghost predicate InUse(buffer: nat)
      reads pad
    {
      pad.Waits(View(buffer))
    }

    /** `_wait_for_view`: the pushes go on until none reads the buffer, or until time is up. */
    method WaitForView(buffer: nat) returns (late: bool)
      requires Valid()
      modifies pad, pad.panels, pad.bus, pad.lines
      ensures Valid() && pad.history == old(pad.history) && (late || !InUse(buffer)) && (old(!InUse(buffer)) ==> !late)
      ensures forall k, b :: 0 <= k < n && old(Current(k, b)) ==> Current(k, b)
      ensures (forall k :: 0 <= k < n ==> ImageOf(k) == old(ImageOf(k))) && forall b :: InUse(b) ==> old(InUse(b))
    {
      var patience: int := *;
      while Some(View(buffer)) in pad.queued || View(buffer) in pad.activeFrames
        invariant Valid() && pad.history == old(pad.history)
        invariant forall k, b :: 0 <= k < n && old(Current(k, b)) ==> Current(k, b)
        invariant (forall k :: 0 <= k < n ==> ImageOf(k) == old(ImageOf(k))) && forall b :: InUse(b) ==> old(InUse(b))
        decreases patience
      {
        if patience <= 0 {
          return true;
        }
        patience := patience - 1;
        Service();
      }
      return false;
    }

    /** `_store_frame`: a slot changes only when no push reads it, unless the wait took too long. */
    method StoreFrame(m: Wire.Message) returns (late: bool)
      requires Valid() && m.StoreFrame? && WholeGlyphs(m)
      modifies pad, pad.panels, pad.bus, pad.lines, cache
      ensures Valid() && pad.history == old(pad.history) && (late || cache.torn == old(cache.torn))
      ensures late ==> m.slot < SLOT_COUNT && old(InUse(m.slot))
      ensures cache.buffers == if m.slot < SLOT_COUNT then old(cache.buffers)[m.slot := Compose(m.color, m.picture)]
              else old(cache.buffers)
      ensures cache.Now() == StockHeard(old(cache.Now()), m)
      ensures m.slot < SLOT_COUNT ==>
                cache.colors[m.slot] == m.color && cache.hasGlyph[m.slot] == m.picture.Some? && cache.filled[m.slot]
      ensures forall k, b :: 0 <= k < n && old(Current(k, b)) ==> Current(k, b)
      ensures forall k :: 0 <= k < n ==> FaceOf(k) == old(FaceOf(k))
    {
      hide Pushes.Valid, KeyState.Valid, Compose;
      if m.slot >= SLOT_COUNT {
        return false;
      }
      late := WaitForView(m.slot);
      cache.Store(m.slot, m.color, m.picture, InUse(m.slot));
      assert cache.buffers[..SLOT_COUNT] == old(cache.buffers)[..SLOT_COUNT][m.slot := Compose(m.color, m.picture)];
      assert cache.Now().pictures == StockHeard(old(cache.Now()), m).pictures;
      assert cache.Now().filled == StockHeard(old(cache.Now()), m).filled;
    }

    /** The buffer for the key's next pip. */
    function PipBuffer(k: nat): nat
      requires k < |pipNext|
      reads this`pipNext
    {
      SLOT_COUNT + 2 * k + pipNext[k]
    }

    /** `_pip_frame`: a copy of the slot with a pip, in the buffer that the key's last pip did not use. */
    method PipFrame(k: nat, slot: nat) returns (frame: Option<Frame>, late: bool)
      requires Valid() && k < n && slot < SLOT_COUNT
      modifies pad, pad.panels, pad.bus, pad.lines, cache`buffers, cache`torn, this`pipNext
      ensures Valid() && pad.history == old(pad.history) && (late || cache.torn == old(cache.torn))
      ensures cache.buffers[..SLOT_COUNT] == old(cache.buffers[..SLOT_COUNT])
      ensures frame.Some? ==>
                frame.value == View(old(PipBuffer(k))) && pipNext == old(pipNext)[k := 1 - old(pipNext[k])]
      ensures frame.None? <==> !cache.hasSheet || PIP_BUFFERS <= 2 * k + old(pipNext[k])
      ensures late ==> old(InUse(PipBuffer(k)))
      ensures pipNext == if frame.Some? then old(pipNext)[k := 1 - old(pipNext[k])] else old(pipNext)
      ensures forall j, b :: 0 <= j < n && old(Current(j, b)) ==> Current(j, b)
      ensures (forall j :: 0 <= j < n ==> ImageOf(j) == old(ImageOf(j))) && forall b :: InUse(b) ==> old(InUse(b))
    {
      hide Pushes.Valid, KeyState.Valid;
      if !cache.hasSheet || PIP_BUFFERS <= 2 * k + pipNext[k] {
        return None, false;
      }
      var buffer := PipBuffer(k);
      late := WaitForView(buffer);
      cache.Stamp(buffer, slot, InUse(buffer));
      pipNext := pipNext[k := 1 - pipNext[k]];
      return Some(View(buffer)), late;
    }

    /** The key shows this slot, by the frame `f`: the slot's buffer, or a copy with a pip. */
    ghost predicate Shows(k: nat, slot: nat, f: Frame)
      requires k < |keys|
      reads this`dirty, pad, keys, cache
    {
      var s := keys[k];
      && s.cached && !s.blink && k !in dirty && Current(k, true) && s.onFrame == Some(f)
      && slot < |cache.colors| == |cache.hasGlyph| && s.color == cache.colors[slot]
      && s.emojiId == if cache.hasGlyph[slot] || f != View(slot) then SENTINEL_EMOJI else DEFAULT_EMOJI
    }

    /** The frame by which a Show of slots and counts draws key `k` now. */
    function FrameFor(k: nat, slots: seq<byte>, counts: seq<byte>): Frame
      requires k < |slots| && k < |pipNext|
      reads this`pipNext, cache`hasSheet
    {
      ShownFrame(k, slots[k], if k < |counts| then counts[k] else 0, cache.hasSheet, pipNext[k])
    }

    /** One key of a Show. */
    method ShowOne(k: nat, slot: nat, count: nat) returns (late: bool)
      requires Valid() && batch == None && k < n && slot < SLOT_COUNT
      modifies pad, pad.panels, pad.bus, pad.lines, cache`buffers, cache`torn, this`pipNext, this`dirty, keys[k]
      ensures Valid() && Shows(k, slot, ShownFrame(k, slot, count, cache.hasSheet, old(pipNext[k])))
              && (late || cache.torn == old(cache.torn))
              && dirty == old(dirty) - {k}
      ensures cache.buffers[..SLOT_COUNT] == old(cache.buffers[..SLOT_COUNT])
      ensures late ==> count > 0 && old(InUse(PipBuffer(k)))
      ensures forall j, b :: 0 <= j < n && j != k && old(Current(j, b)) ==> Current(j, b)
      ensures forall j :: 0 <= j < n && j != k ==> ImageOf(j) == old(ImageOf(j)) && pipNext[j] == old(pipNext[j])
      ensures forall b :: SLOT_COUNT <= b && b !in PipBuffers(k) && InUse(b) ==> old(InUse(b))
      ensures (FaceOf(k), pipNext[k]) == ShownAs(k, slot, count, old(cache.Now()), old(pipNext[k]))
      ensures cache.Now() == old(cache.Now()) && forall j :: 0 <= j < n && j != k ==> FaceOf(j) == old(FaceOf(j))
    {
      hide Drawn, Current, BatchOk, Pushes.Valid, KeyState.Valid;
      late := false;
      var frame: Option<Frame> := None;
      if count > 0 {
        frame, late := PipFrame(k, slot);
      }
      ShowFrame(k, slot, if frame.Some? then frame.value else View(slot), cache.hasGlyph[slot] || frame.Some?);
    }

    method ShowFrame(k: nat, slot: nat, f: Frame, picture: bool)
      requires Valid() && batch == None && k < n && slot < SLOT_COUNT
      modifies pad`queue, pad`queued, pad`history, pad`tracks, this`dirty, keys[k]
      ensures Valid() && Current(k, true) && dirty == old(dirty) - {k}
      ensures keys[k].cached && !keys[k].blink && keys[k].onFrame == Some(f) && keys[k].color == cache.colors[slot]
      ensures FaceOf(k) == Face(cache.colors[slot], if picture then SENTINEL_EMOJI else DEFAULT_EMOJI, false, None)
      ensures forall j :: 0 <= j < n && j != k ==> ImageOf(j) == old(ImageOf(j))
      ensures forall b :: View(b) != f && InUse(b) ==> old(InUse(b))
      ensures forall j, b :: 0 <= j < n && j != k && old(Current(j, b)) ==> Current(j, b)
    {
      hide Pushes.Valid, KeyState.Valid;
      keys[k].ShowCached(f, cache.colors[slot], if picture then SENTINEL_EMOJI else DEFAULT_EMOJI);
      OthersStay(k);
      QueueShown(k, f);
    }

    /** The frame of a key that shows a slot goes into the queue. */
    method QueueShown(k: nat, f: Frame)
      requires Base() && batch == None && k < n && keys[k].Fresh() && keys[k].blinkVisible && keys[k].onFrame == Some(f)
      requires !keys[k].blink && forall j :: 0 <= j < n && j !in dirty && j != k ==> Drawn(j)
      modifies pad`queue, pad`queued, pad`history, pad`tracks, this`dirty
      ensures Valid() && Current(k, true) && dirty == old(dirty) - {k}
      ensures forall j :: 0 <= j < n && j != k ==> ImageOf(j) == old(ImageOf(j))
      ensures forall b :: View(b) != f && InUse(b) ==> old(InUse(b))
      ensures forall j, b :: 0 <= j < n && j != k && old(Current(j, b)) ==> Current(j, b)
    {
      hide Pushes.Valid, KeyState.Valid, KeyState.Fresh, LookOf;
      pad.Submit(k, f);
      dirty := dirty - {k};
    }

    /** The key is named with a slot that the cache holds. */
    predicate Takes(slots: seq<byte>, k: nat)
      reads cache`filled
    {
      Named(slots, k, cache.filled)
    }

    /** The pip of some named key goes to a buffer that a push reads. */
    ghost predicate PipWaits(slots: seq<byte>, counts: seq<byte>)
      reads this, pad, cache
    {
      exists k :: 0 <= k < |pipNext| && Takes(slots, k) && CountOf(counts, k) > 0 && InUse(PipBuffer(k))
    }

    /** `_show_frames`: every named key shows its slot, and those that name an empty slot are answered with
        a Show miss. Those and the keys that are not named keep their image. An open batch is released first. */
    method ShowFrames(slots: seq<byte>, counts: seq<byte>, nowUs: nat) returns (missed: set<nat>, late: bool)
      requires Valid() && (counts == [] || |counts| == |slots|)
      modifies this`batch, this`dirty, this`pipNext, keys, pad, pad.panels, pad.bus, pad.lines, cache`buffers
      modifies cache`torn
      ensures Valid() && batch == None && (late || cache.torn == old(cache.torn)) && cache.filled == old(cache.filled)
      ensures late ==> old(PipWaits(slots, counts) || Releases())
      ensures forall k :: 0 <= k < n && k < |slots| && slots[k] < 52 && cache.filled[slots[k]] ==>
                Shows(k, slots[k], old(FrameFor(k, slots, counts)))
      ensures forall k :: 0 <= k < n && !Takes(slots, k) ==>
                LookOf(k) == old(LookOf(k))
                    && ((old(Releases()) && k in old(batch).value.touched) || ImageOf(k) == old(ImageOf(k)))
      ensures missed == Missing(slots, n)
      ensures forall k :: k in missed <==>
                0 <= k < n && k < |slots| && slots[k] != 255 && (slots[k] >= 52 || !cache.filled[slots[k]])
      ensures cache.Now() == old(cache.Now())
      ensures forall k :: 0 <= k < n ==>
                (FaceOf(k), pipNext[k]) == ShowHeard(old(FaceOf(k)), old(pipNext[k]), k, slots, counts,
                    old(cache.Now()))
    {
      hide Pushes.Valid, KeyState.Valid, Current, Drawn, InUse, ShowHeard;
      late := false;
      if batch.Some? {
        ReleaseBatch(nowUs);
      }
      assert PipWaits(slots, counts) ==> old(PipWaits(slots, counts) || Releases());
      missed, late := ShowNamed(slots, counts);
    }

    /** The batch holds frames back that its release puts in the queue. */
    predicate Releases()
      reads this
    {
      batch.Some? && batch.value.touched != {}
    }

    method ShowNamed(slots: seq<byte>, counts: seq<byte>) returns (missed: set<nat>, late: bool)
      requires Valid() && batch == None && (counts == [] || |counts| == |slots|)
      modifies this`dirty, this`pipNext, keys, pad, pad.panels, pad.bus, pad.lines, cache`buffers, cache`torn
      ensures Valid() && batch == None && (late || cache.torn == old(cache.torn)) && cache.filled == old(cache.filled)
      ensures late ==> old(PipWaits(slots, counts))
      ensures forall k :: 0 <= k < n && Takes(slots, k) ==> Shows(k, slots[k], old(FrameFor(k, slots, counts)))
      ensures forall k :: 0 <= k < n && !Takes(slots, k) ==> ImageOf(k) == old(ImageOf(k))
      ensures missed == Missing(slots, n)
      ensures cache.Now() == old(cache.Now())
      ensures forall k :: 0 <= k < n ==>
                (FaceOf(k), pipNext[k]) == ShowHeard(old(FaceOf(k)), old(pipNext[k]), k, slots, counts,
                    old(cache.Now()))
    {
      hide Pushes.Valid, KeyState.Valid, Current, Drawn, InUse, ImageOf, BatchOk, LookOf, FaceOf, ShownAs, Shows,
        ShownFrame, CountOf, Base, Missing;
      missed, late := {}, false;
      Sizes();
      MissingStep(slots, 0);
      for k := 0 to n
        modifies this`dirty, this`pipNext, keys, pad, pad.panels, pad.bus, pad.lines, cache`buffers, cache`torn
        invariant |keys| == |pipNext| == |pad.tracks| == n && cache.Valid()
        invariant Valid() && (late || cache.torn == old(cache.torn))
        invariant late ==> old(PipWaits(slots, counts))
        invariant forall j :: 0 <= j < k && Takes(slots, j) ==> Shows(j, slots[j], old(FrameFor(j, slots, counts)))
        invariant forall j :: 0 <= j < n && (j >= k || !Takes(slots, j)) ==> ImageOf(j) == old(ImageOf(j))
        invariant forall j :: k <= j < n ==> pipNext[j] == old(pipNext[j]) && FaceOf(j) == old(FaceOf(j))
        invariant cache.Now() == old(cache.Now())
        invariant forall j :: 0 <= j < k ==>
                    (FaceOf(j), pipNext[j])
                      == ShowHeard(old(FaceOf(j)), old(pipNext[j]), j, slots, counts, old(cache.Now()))
        invariant forall b :: SLOT_COUNT + 2 * k <= b && InUse(b) ==> old(InUse(b))
        invariant missed == Missing(slots, k)
      {
        MissingStep(slots, k);
        if Takes(slots, k) {
          var slow := ShowKey(k, slots, counts);
          late := late || slow;
          Sizes();
        } else if Names(slots, k) {
          missed := missed + {k};
        }
      }
    }

    /** Of the first `k` keys those that are named with a slot that holds nothing. */
    ghost function Missing(slots: seq<byte>, k: nat): set<nat>
      reads cache`filled
    {
      set j | j in KeysBelow(k) && Names(slots, j) && !Takes(slots, j)
    }

    lemma MissingStep(slots: seq<byte>, k: nat)
      ensures Missing(slots, 0) == {}
      ensures Missing(slots, k + 1) == Missing(slots, k) + if Names(slots, k) && !Takes(slots, k) then {k} else {}
    {
    }

    lemma Sizes()
      requires Valid()
      ensures |keys| == |pipNext| == |pad.tracks| == n && cache.Valid()
    {
    }

    /** One key that a Show names. */
    method ShowKey(k: nat, slots: seq<byte>, counts: seq<byte>) returns (late: bool)
      requires Valid() && batch == None && k < n && Takes(slots, k)
      modifies pad, pad.panels, pad.bus, pad.lines, cache`buffers, cache`torn, this`pipNext, this`dirty, keys[k]
      ensures Valid() && Shows(k, slots[k], old(FrameFor(k, slots, counts))) && (late || cache.torn == old(cache.torn))
      ensures late ==> CountOf(counts, k) > 0 && old(InUse(PipBuffer(k)))
      ensures forall j :: 0 <= j < n && j != k ==> ImageOf(j) == old(ImageOf(j)) && pipNext[j] == old(pipNext[j])
      ensures forall j :: 0 <= j < n && j != k ==> FaceOf(j) == old(FaceOf(j))
      ensures forall j: nat, s: nat, f :: j < n && j != k && old(Shows(j, s, f)) ==> Shows(j, s, f)
      ensures forall b :: SLOT_COUNT <= b && b !in PipBuffers(k) && InUse(b) ==> old(InUse(b))
      ensures (FaceOf(k), pipNext[k]) == ShowHeard(old(FaceOf(k)), old(pipNext[k]), k, slots, counts, old(cache.Now()))
      ensures cache.Now() == old(cache.Now())
    {
      hide Pushes.Valid, KeyState.Valid, Current, Drawn, InUse, ImageOf, BatchOk, LookOf, FaceOf, ShownAs;
      late := ShowOne(k, slots[k], CountOf(counts, k));
    }

    ghost function SceneNow(): Scene
      requires |keys| == |pipNext| && cache.Valid()
      reads this, keys, cache
    {
      Scene(seq(|keys|, k requires 0 <= k < |keys| reads keys => FaceOf(k)), pipNext, cache.Now(), WaitOf(batch))
    }

    lemma AllHeard(before: Scene, m: Wire.Message, nowUs: nat)
      requires Valid() && |before.faces| == |before.pips| == n && cache.Now() == StockHeard(before.stock, m)
      requires forall k :: 0 <= k < n ==>
                 (FaceOf(k), pipNext[k]) == FaceHeard(before.faces[k], before.pips[k], k, m, before.stock)
      requires WaitOf(batch) == WaitHeard(before.wait, m, nowUs, n)
      ensures SceneNow() == Heard(before, m, nowUs)
    {
      hide FaceOf, FaceHeard, StockHeard, WaitHeard, WaitOf;
    }

    /** The message writes to a buffer that a push may read. */
    ghost predicate MustWait(m: Wire.Message)
      reads this, pad, cache
    {
      match m
      case StoreFrame(slot, _, _) => slot < SLOT_COUNT && InUse(slot)
      case ShowFrames(slots) => Releases()
      case ShowPips(slots, counts) => PipWaits(slots, counts) || Releases()
      case _ => false
    }

    /** `_apply_cdc_message`: one message from the reader. */
    method Apply(m: Wire.Message, nowUs: nat) returns (missed: set<nat>, late: bool)
      requires Valid() && WholeGlyphs(m)
      modifies this, keys, pad, pad.panels, pad.bus, pad.lines, cache
      ensures Valid() && (late || cache.torn == old(cache.torn)) && batches >= old(batches)
      ensures late ==> old(MustWait(m))
      ensures batches == old(batches) ==> Shrinks(old(batch), batch) || batch == None
      ensures HeldKeys(batch) == Held(m, old(batch), n)
      ensures SceneNow() == Heard(old(SceneNow()), m, nowUs)
      ensures missed == Missed(old(SceneNow()), m)
      ensures m.BeginBatch? || batches == old(batches)
      ensures batches != old(batches) ==> batch.Some? && batch.value.deadlineUs == nowUs + BATCH_TIMEOUT_US
    {
      hide Base, Pushes.Valid, KeyState.Valid, InUse, FaceOf, ShowHeard, Heard, SceneNow;
      SceneIs();
      ghost var before := SceneNow();
      missed, late := {}, false;
      match m {
        case KeyState(_, _, _, _) =>
          var changed := ApplyKeyState(m, nowUs);
        case Glyph(_, _) =>
          var changed := ApplyGlyph(m, nowUs);
        case BeginBatch(glyphs, states) =>
          BeginBatch(glyphs, states, nowUs);
        case StoreFrame(_, _, _) =>
          late := StoreFrame(m);
        case ShowFrames(slots) =>
          missed, late := ShowFrames(slots, [], nowUs);
        case PipSheet(_, _) =>
          SetSheet();
        case ShowPips(slots, counts) =>
          missed, late := ShowFrames(slots, counts, nowUs);
      }
      AllHeard(before, m, nowUs);
    }

    lemma SceneStays(before: Scene)
      requires Valid() && |before.faces| == n && before.pips == pipNext && before.stock == cache.Now()
      requires forall k :: 0 <= k < n ==> FaceOf(k) == before.faces[k]
      ensures SceneNow() == before.(wait := WaitOf(batch))
    {
      hide FaceOf, WaitOf;
    }

    lemma SceneIs()
      requires Valid()
      ensures |keys| == |pipNext| == n && cache.Valid()
      ensures var s := SceneNow();
              && |s.faces| == n && s.pips == pipNext && s.stock == cache.Now() && s.wait == WaitOf(batch)
              && forall k :: 0 <= k < n ==> s.faces[k] == FaceOf(k)
    {
    }

    method SetSheet()
      requires Valid()
      modifies cache`hasSheet
      ensures Valid() && cache.Now() == old(cache.Now()).(sheet := true) && cache.hasSheet
    {
      hide Pushes.Valid, KeyState.Valid;
      cache.hasSheet := true;
    }

    /** What the loop does with a key state that came over HID. */
    method ApplyReport(m: Wire.Message, nowUs: nat)
      requires Valid() && m.KeyState?
      modifies this`dirty, this`batch, keys
      ensures Valid() && SceneNow() == Heard(old(SceneNow()), m, nowUs) && Shrinks(old(batch), batch)
    {
      hide Base, Pushes.Valid, KeyState.Valid, FaceOf, Heard, SceneNow;
      SceneIs();
      ghost var before := SceneNow();
      var changed := ApplyKeyState(m, nowUs);
      AllHeard(before, m, nowUs);
    }

    /** The drawing in a pass, and the end of a batch that has all or is out of time. */
    method Draw(nowUs: nat)
      requires Valid()
      modifies this`dirty, this`batch, keys, pad`queue, pad`queued, pad`history, pad`tracks
      ensures Valid() && dirty == {} && SceneNow() == old(SceneNow()).(wait := DoneAt(old(SceneNow()).wait, nowUs))
      ensures forall k :: 0 <= k < n && k !in HeldKeys(old(batch)) ==> Current(k, Phase(nowUs))
      ensures batch.Some? ==> old(batch).Some? && GoesOn(old(batch).value, batch.value)
    {
      hide Base, Pushes.Valid, KeyState.Valid, Drawn, Current, Phase, LookOf, SceneNow;
      SceneIs();
      ghost var before := SceneNow();
      RenderDirtyKeys(nowUs);
      var nudge := ReleaseBatchIfDone(nowUs);
      SceneStays(before);
    }

    /** One pass of the main loop. Each key's face, its pip, the slots and the open batch are those that the messages
        of the pass make of them. Every key that no batch held when it drew ends with its newest frame that of its
        state, in the blink phase of this moment. */
    method Step(nowUs: nat, m: Option<Wire.Message>, report: Option<Wire.Message>)
        returns (missed: set<nat>, late: bool)
      requires Valid() && (m.Some? ==> WholeGlyphs(m.value)) && (report.Some? ==> report.value.KeyState?)
      modifies this, keys, pad, pad.panels, pad.bus, pad.lines, cache
      ensures Valid() && dirty == {} && (late || cache.torn == old(cache.torn)) && (pad.active != [] || pad.queue == [])
      ensures SceneNow() == Passed(old(SceneNow()), nowUs, m, report)
      ensures var w := Told(old(SceneNow()), nowUs, m, report).wait;
              batch.Some? <==> w.Some? && (w.value.glyphs != {} || w.value.states != {}) && nowUs < w.value.deadlineUs
      ensures missed == if m.Some? then Missed(old(SceneNow()), m.value) else {}
      ensures late ==> m.Some? && old(MustWait(m.value))
      ensures forall k :: 0 <= k < n && k !in HeldAt(old(SceneNow()), nowUs, m) ==> Current(k, Phase(nowUs))
      ensures batch.Some? ==> forall k :: k in batch.value.keys ==> k < n && Older(pad.tracks[k], mark)
      ensures batch.Some? && batches == old(batches) ==> old(batch).Some? && GoesOn(old(batch).value, batch.value)
    {
      hide Base, Pushes.Valid, KeyState.Valid, Drawn, Current, Phase, InUse, SceneNow, Heard, FaceOf;
      missed, late := {}, false;
      SceneIs();
      ghost var before := SceneNow();
      Service();
      SceneStays(before);
      if m.Some? {
        assert MustWait(m.value) ==> old(MustWait(m.value));
        missed, late := Apply(m.value, nowUs);
      }
      SceneIs();
      assert HeldKeys(batch) == HeldAt(before, nowUs, m);
      if report.Some? {
        ApplyReport(report.value, nowUs);
      }
      Draw(nowUs);
      SceneIs();
      ghost var drawn := SceneNow();
      Service();
      SceneStays(drawn);
      HeldKeysWait();
    }

    /** For a key that an open batch holds, only frames from before the batch wait or are on the wire. */
    lemma HeldKeysWait()
      requires Valid()
      ensures |pad.tracks| == n
              && (batch.Some? ==> forall k :: k in batch.value.keys ==> k < n && Older(pad.tracks[k], mark))
    {
    }
  }

  /** The two buffers for the pips of a key. */
  function PipBuffers(k: nat): set<nat> {
    {SLOT_COUNT + 2 * k, SLOT_COUNT + 2 * k + 1}
  }

  /** The key is named with a slot that holds a frame. */
  predicate Named(slots: seq<byte>, k: nat, filled: seq<bool>) {
    Names(slots, k) && slots[k] < SLOT_COUNT && slots[k] as int < |filled| && filled[slots[k]]
  }

  /** The frame for a slot: with a count, a sheet and a buffer for it, the copy with a pip in the key's next buffer. */
  function ShownFrame(k: nat, slot: nat, count: nat, sheet: bool, pip: nat): Frame {
    if count > 0 && sheet && 2 * k + pip < PIP_BUFFERS then View(SLOT_COUNT + 2 * k + pip) else View(slot)
  }

  function CountOf(counts: seq<byte>, k: nat): nat {
    if k < |counts| then counts[k] else 0
  }

  function EmptyStock(): Stock {
    Stock(seq(SLOT_COUNT, _ => 0), seq(SLOT_COUNT, _ => false), seq(SLOT_COUNT, _ => false), seq(SLOT_COUNT, _ => []),
        false)
  }

  // ---- What the messages come to ----

  function WaitOf(b: Option<Batch>): Option<Wait> {
    if b.None? then None
    else Some(Wait(b.value.keys, b.value.pendingGlyph, b.value.pendingState, b.value.deadlineUs))
  }

  /** An open batch no longer waits for what came. */
  function Noticed(w: Option<Wait>, k: nat, glyph: bool): Option<Wait> {
    if w.None? then None
    else if glyph then Some(w.value.(glyphs := w.value.glyphs - {k}))
        else Some(w.value.(states := w.value.states - {k}))
  }

  /** A Begin batch opens one, a Show ends it, and anything else may be what it waits for. */
  function WaitHeard(w: Option<Wait>, m: Wire.Message, nowUs: nat, n: nat): Option<Wait> {
    match m
    case KeyState(key, _, _, _) => Noticed(w, key, false)
    case Glyph(key, _) => Noticed(w, key, true)
    case BeginBatch(glyphs, states) =>
      Some(Wait(KeysIn(glyphs, n) + KeysIn(states, n), KeysIn(glyphs, n), KeysIn(states, n), nowUs + BATCH_TIMEOUT_US))
    case ShowFrames(_) => None
    case ShowPips(_, _) => None
    case _ => w
  }

  /** A batch ends when it has all, or its time is up. */
  function DoneAt(w: Option<Wait>, nowUs: nat): Option<Wait> {
    if w.Some? && ((w.value.glyphs == {} && w.value.states == {}) || nowUs >= w.value.deadlineUs) then None else w
  }

  /** The face of a key that shows a slot, and its next pip buffer. */
  function ShownAs(k: nat, slot: nat, count: nat, c: Stock, pip: nat): (Face, nat)
    requires slot < |c.colors| && slot < |c.hasGlyph|
  {
    var pipped := count > 0 && c.sheet && 2 * k + pip < PIP_BUFFERS;
    (Face(c.colors[slot], if c.hasGlyph[slot] || pipped then SENTINEL_EMOJI else DEFAULT_EMOJI, false, None),
     if pipped && pip <= 1 then 1 - pip else pip)
  }

  function ShowHeard(f: Face, pip: nat, k: nat, slots: seq<byte>, counts: seq<byte>, c: Stock): (Face, nat) {
    if Named(slots, k, c.filled) && |c.colors| == |c.hasGlyph| == SLOT_COUNT
    then ShownAs(k, slots[k], CountOf(counts, k), c, pip) else (f, pip)
  }

  /** What one key shows after a message, and its next pip buffer. */
  function FaceHeard(f: Face, pip: nat, k: nat, m: Wire.Message, c: Stock): (Face, nat) {
    match m
    case KeyState(key, color, emoji, blink) =>
      if key as int != k then (f, pip)
      else (Face(color, emoji, blink, if emoji == SENTINEL_EMOJI then f.picture else None), pip)
    case Glyph(key, pixels) =>
      if key as int != k then (f, pip) else (f.(emoji := SENTINEL_EMOJI, picture := Some(pixels)), pip)
    case ShowFrames(slots) => ShowHeard(f, pip, k, slots, [], c)
    case ShowPips(slots, counts) => ShowHeard(f, pip, k, slots, counts, c)
    case _ => (f, pip)
  }

  function StockHeard(c: Stock, m: Wire.Message): Stock {
    match m
    case StoreFrame(slot, color, picture) =>
      if slot >= SLOT_COUNT || !(|c.colors| == |c.hasGlyph| == |c.filled| == |c.pictures| == SLOT_COUNT)
         || (picture.Some? && |picture.value| != GLYPH_SIZE) then c
      else
        Stock(c.colors[slot := color], c.hasGlyph[slot := picture.Some?], c.filled[slot := true],
              c.pictures[slot := Compose(color, picture)], c.sheet)
    case PipSheet(_, _) => c.(sheet := true)
    case _ => c
  }

  function Heard(s: Scene, m: Wire.Message, nowUs: nat): (r: Scene)
    requires |s.faces| == |s.pips|
    ensures |r.faces| == |r.pips| == |s.faces|
    ensures r.stock == StockHeard(s.stock, m) && r.wait == WaitHeard(s.wait, m, nowUs, |s.faces|)
  {
    Scene(seq(|s.faces|, k requires 0 <= k < |s.faces| => FaceHeard(s.faces[k], s.pips[k], k, m, s.stock).0),
          seq(|s.faces|, k requires 0 <= k < |s.faces| => FaceHeard(s.faces[k], s.pips[k], k, m, s.stock).1),
          StockHeard(s.stock, m), WaitHeard(s.wait, m, nowUs, |s.faces|))
  }

  /** The scene after the message and the report of a pass. */
  function Told(s: Scene, nowUs: nat, m: Option<Wire.Message>, report: Option<Wire.Message>): (r: Scene)
    requires |s.faces| == |s.pips|
    ensures |r.faces| == |r.pips| == |s.faces|
  {
    var told := if m.Some? then Heard(s, m.value, nowUs) else s;
    if report.Some? then Heard(told, report.value, nowUs) else told
  }

  /** The scene after a pass. */
  function Passed(s: Scene, nowUs: nat, m: Option<Wire.Message>, report: Option<Wire.Message>): (r: Scene)
    requires |s.faces| == |s.pips|
    ensures |r.faces| == |r.pips| == |s.faces|
  {
    var after := Told(s, nowUs, m, report);
    after.(wait := DoneAt(after.wait, nowUs))
  }

  /** The keys that a batch holds back while a pass draws. */
  function HeldAt(s: Scene, nowUs: nat, m: Option<Wire.Message>): set<nat> {
    var w := if m.Some? then WaitHeard(s.wait, m.value, nowUs, |s.faces|) else s.wait;
    if w.None? then {} else w.value.keys
  }

  function Blank(n: nat): (r: Scene)
    ensures |r.faces| == |r.pips| == n
  {
    Scene(seq(n, _ => Face(0, DEFAULT_EMOJI, false, None)), seq(n, _ => 0), EmptyStock(), None)
  }

  function After(n: nat, passes: seq<Pass>): (r: Scene)
    ensures |r.faces| == |r.pips| == n
  {
    if passes == [] then Blank(n)
    else
      var p := passes[|passes| - 1];
      Passed(After(n, passes[..|passes| - 1]), p.nowUs, p.message, p.report)
  }

  /** The keys that a Show names with an empty slot. */
  function Missed(s: Scene, m: Wire.Message): set<nat> {
    match m
    case ShowFrames(slots) => set k | k in KeysBelow(|s.faces|) && Names(slots, k) && !Named(slots, k, s.stock.filled)
    case ShowPips(slots, _) => set k | k in KeysBelow(|s.faces|) && Names(slots, k) && !Named(slots, k, s.stock.filled)
    case _ => {}
  }

  function HeldKeys(b: Option<Batch>): set<nat> {
    if b.Some? then b.value.keys else {}
  }

  /** The keys that a batch holds back after a message: a Begin batch names them, and a Show releases all. */
  function Held(m: Wire.Message, before: Option<Batch>, n: nat): set<nat> {
    match m
    case BeginBatch(glyphs, states) => KeysIn(glyphs, n) + KeysIn(states, n)
    case ShowFrames(_) => {}
    case ShowPips(_, _) => {}
    case _ => HeldKeys(before)
  }

  /** A Show names the key. */
  predicate Names(slots: seq<byte>, k: nat) {
    k < |slots| && slots[k] != SLOT_UNCHANGED
  }

  /** The same batch, a pass later. */
  predicate GoesOn(before: Batch, after: Batch) {
    && after.keys == before.keys && after.deadlineUs == before.deadlineUs && before.touched <= after.touched
    && after.pendingGlyph <= before.pendingGlyph && after.pendingState <= before.pendingState
    && before.nudges <= after.nudges <= before.nudges + 1
  }

  predicate Complete(b: Batch) {
    b.pendingGlyph == {} && b.pendingState == {}
  }

  /** Until it ends, a batch keeps its keys and its deadline, and waits for ever less. */
  predicate Shrinks(before: Option<Batch>, after: Option<Batch>) {
    before.Some? == after.Some? &&
    (before.Some? ==>
      var b, a := before.value, after.value;
      && a.keys == b.keys && a.deadlineUs == b.deadlineUs && a.nudges == b.nudges && a.touched == b.touched
      && a.pendingGlyph <= b.pendingGlyph && a.pendingState <= b.pendingState)
  }

  /** The batch once it holds back these changes too. */
  function Touch(b: Option<Batch>, changed: set<nat>): (r: Option<Batch>)
    ensures b.Some? == r.Some?
    ensures b.Some? ==> r.value.(touched := b.value.touched) == b.value && b.value.touched <= r.value.touched
    ensures b.Some? ==> forall k :: k in changed && k in b.value.keys ==> k in r.value.touched
  {
    if b.None? then None else Some(b.value.(touched := b.value.touched + changed * b.value.keys))
  }

  lemma TouchStep(b: Option<Batch>, changed: set<nat>, k: nat)
    ensures Touch(b, changed * KeysBelow(0)) == b
            && ((forall j :: j in changed ==> j < k) ==> changed * KeysBelow(k) == changed)
    ensures b.None? || k !in changed || k !in b.value.keys ==>
              Touch(b, changed * KeysBelow(k + 1)) == Touch(b, changed * KeysBelow(k))
    ensures b.Some? && k in changed && k in b.value.keys ==>
      var t := Touch(b, changed * KeysBelow(k)).value;
          Touch(b, changed * KeysBelow(k + 1)) == Some(t.(touched := t.touched + {k}))
  {
    assert changed * KeysBelow(k + 1) == changed * KeysBelow(k) + if k in changed then {k} else {};
    if b.Some? {
      assert b.value.touched + changed * KeysBelow(0) * b.value.keys == b.value.touched;
      var t := b.value.touched + changed * KeysBelow(k) * b.value.keys;
      if k in b.value.keys && k in changed {
        assert b.value.touched + changed * KeysBelow(k + 1) * b.value.keys == t + {k};
      } else {
        assert b.value.touched + changed * KeysBelow(k + 1) * b.value.keys == t;
      }
    }
  }

  ghost predicate Older(t: Track, mark: nat) {
    (t.waiting.Some? ==> t.waiting.value < mark) && (t.onWire.Some? ==> t.onWire.value < mark)
  }

  /** What one pass of the loop finds. */
  datatype Pass = Pass(nowUs: nat, message: Option<Wire.Message>, report: Option<Wire.Message>)

  // ---- What the cache holds ----

  /** A slot holds a frame exactly when some pass stored one there, and pips are drawn exactly when some pass brought
      their sheet. */
  lemma {:induction false} StockLife(n: nat, passes: seq<Pass>, slot: nat)
    requires forall i :: 0 <= i < |passes| ==> passes[i].message.Some? ==> WholeGlyphs(passes[i].message.value)
    requires forall i :: 0 <= i < |passes| ==> passes[i].report.Some? ==> passes[i].report.value.KeyState?
    requires slot < SLOT_COUNT
    ensures var c := After(n, passes).stock;
            && |c.colors| == |c.hasGlyph| == |c.filled| == |c.pictures| == SLOT_COUNT
            && (c.filled[slot] <==> exists i :: 0 <= i < |passes| && StoresIn(passes[i], slot))
            && (c.sheet <==> exists i :: 0 <= i < |passes| && BringsSheet(passes[i]))
  {
    hide WaitHeard, FaceHeard, Compose, DoneAt;
    if passes != [] {
      var last := |passes| - 1;
      StockLife(n, passes[..last], slot);
      assert forall i :: 0 <= i < last ==> passes[..last][i] == passes[i];
      StockStep(After(n, passes[..last]), passes[last], slot);
    }
  }

  predicate StoresIn(p: Pass, slot: nat) {
    p.message.Some? && p.message.value.StoreFrame? && p.message.value.slot as int == slot
  }

  predicate BringsSheet(p: Pass) {
    p.message.Some? && p.message.value.PipSheet?
  }

  lemma StockStep(s: Scene, p: Pass, slot: nat)
    requires |s.faces| == |s.pips| && slot < SLOT_COUNT && (p.message.Some? ==> WholeGlyphs(p.message.value))
    requires var c := s.stock; |c.colors| == |c.hasGlyph| == |c.filled| == |c.pictures| == SLOT_COUNT
    requires p.report.Some? ==> p.report.value.KeyState?
    ensures var c := Passed(s, p.nowUs, p.message, p.report).stock;
            && |c.colors| == |c.hasGlyph| == |c.filled| == |c.pictures| == SLOT_COUNT
            && (c.filled[slot] <==> s.stock.filled[slot] || StoresIn(p, slot))
            && (c.sheet <==> s.stock.sheet || BringsSheet(p))
            && (if StoresIn(p, slot)
                then c.colors[slot] == p.message.value.color && c.hasGlyph[slot] == p.message.value.picture.Some?
                     && c.pictures[slot] == Compose(p.message.value.color, p.message.value.picture)
                else c.colors[slot] == s.stock.colors[slot] && c.hasGlyph[slot] == s.stock.hasGlyph[slot]
                     && c.pictures[slot] == s.stock.pictures[slot])
  {
    hide WaitHeard, FaceHeard, Compose, DoneAt;
  }

  // ---- When a batch is open ----

  /** The batch asks for the glyph, or the state, of key `k`. */
  predicate Asks(m: Wire.Message, k: nat, glyph: bool) {
    m.BeginBatch? && Shr(if glyph then m.glyphs else m.states, k) % 2 == 1
  }

  /** The pass brings it, by a message or by a report. */
  predicate Brings(p: Pass, k: nat, glyph: bool) {
    if glyph then p.message.Some? && p.message.value.Glyph? && p.message.value.key as int == k
    else
      || (p.message.Some? && p.message.value.KeyState? && p.message.value.key as int == k)
      || (p.report.Some? && p.report.value.KeyState? && p.report.value.key as int == k)
  }

  /** The pass brings a Show or another batch. */
  predicate Cuts(p: Pass) {
    p.message.Some? && (p.message.value.BeginBatch? || p.message.value.ShowFrames? || p.message.value.ShowPips?)
  }

  /** The batch of pass `i` asks for it, and no pass up to `j` has brought it. */
  ghost predicate Lacks(n: nat, passes: seq<Pass>, i: nat, j: nat, k: nat, glyph: bool)
    requires i <= j < |passes|
  {
    && k < n && passes[i].message.Some? && Asks(passes[i].message.value, k, glyph)
    && forall a :: i <= a <= j ==> !Brings(passes[a], k, glyph)
  }

  ghost predicate StillLacks(n: nat, passes: seq<Pass>, i: nat, j: nat)
    requires i <= j < |passes|
  {
    exists k, glyph :: Lacks(n, passes, i, j, k, glyph)
  }

  /** Pass `i` opened a batch that is open to this day: nothing cut it short, it always lacked something, and no pass
      came two seconds later. */
  ghost predicate OpenSince(n: nat, passes: seq<Pass>, i: nat) {
    && i < |passes| && passes[i].message.Some? && passes[i].message.value.BeginBatch?
    && (forall j :: i < j < |passes| ==> !Cuts(passes[j]))
    && forall j :: i <= j < |passes| ==>
         StillLacks(n, passes, i, j) && passes[j].nowUs < passes[i].nowUs + 2_000_000
  }

  /** What such a batch waits for. */
  ghost predicate WaitFits(n: nat, passes: seq<Pass>, i: nat, w: Wait)
    requires i < |passes|
  {
    var last := |passes| - 1;
    && w.deadlineUs == passes[i].nowUs + 2_000_000
    && (forall k: nat :: k in w.glyphs <==> Lacks(n, passes, i, last, k, true))
    && (forall k: nat :: k in w.states <==> Lacks(n, passes, i, last, k, false))
    && passes[i].message.Some?
    && forall k: nat :: k in w.keys <==>
         k < n && (Asks(passes[i].message.value, k, true) || Asks(passes[i].message.value, k, false))
  }

  lemma SameLack(n: nat, passes: seq<Pass>, m: nat, i: nat, j: nat)
    requires i <= j < m <= |passes|
    ensures forall k, glyph :: Lacks(n, passes[..m], i, j, k, glyph) <==> Lacks(n, passes, i, j, k, glyph)
    ensures StillLacks(n, passes[..m], i, j) <==> StillLacks(n, passes, i, j)
  {
    hide Asks, Brings;
    forall k: nat, glyph ensures Lacks(n, passes[..m], i, j, k, glyph) <==> Lacks(n, passes, i, j, k, glyph) {
      assert forall a :: i <= a <= j ==> passes[..m][a] == passes[a];
    }
  }

  /** One pass more: a batch that is still open was open before. */
  lemma OpenBefore(n: nat, passes: seq<Pass>, i: nat)
    requires i + 1 < |passes|
    ensures var last := |passes| - 1;
            OpenSince(n, passes, i) <==>
              && OpenSince(n, passes[..last], i) && !Cuts(passes[last]) && StillLacks(n, passes, i, last)
              && passes[last].nowUs < passes[i].nowUs + 2_000_000
  {
    hide StillLacks, Cuts;
    var last := |passes| - 1;
    var init := passes[..last];
    assert forall j :: 0 <= j < last ==> init[j] == passes[j];
    forall j | i <= j < last ensures StillLacks(n, init, i, j) <==> StillLacks(n, passes, i, j) {
      SameLack(n, passes, last, i, j);
    }
  }

  /** A wait that fits is done exactly when the batch lacks nothing, or two seconds are over. */
  lemma DoneIff(n: nat, passes: seq<Pass>, i: nat, w: Wait)
    requires i < |passes| && WaitFits(n, passes, i, w)
    ensures var last := |passes| - 1;
            DoneAt(Some(w), passes[last].nowUs)
              == if StillLacks(n, passes, i, last) && passes[last].nowUs < passes[i].nowUs + 2_000_000
                 then Some(w) else None
  {
    hide Lacks;
    var last := |passes| - 1;
    if StillLacks(n, passes, i, last) {
      var k, glyph :| Lacks(n, passes, i, last, k, glyph);
      assert if glyph then k in w.glyphs else k in w.states;
    } else {
      assert forall k: nat :: k !in w.glyphs && k !in w.states;
      assert w.glyphs == {} && w.states == {};
    }
  }

  /** The wait after the message and the report of the last pass, when that pass opens a batch. */
  lemma OpenedFits(n: nat, passes: seq<Pass>)
    requires passes != [] && var p := passes[|passes| - 1];
             && p.message.Some? && p.message.value.BeginBatch? && (p.report.Some? ==> p.report.value.KeyState?)
    ensures var last := |passes| - 1;
            var w := Told(After(n, passes[..last]), passes[last].nowUs, passes[last].message, passes[last].report).wait;
            w.Some? && WaitFits(n, passes, last, w.value)
  {
    hide Shr, After;
  }

  /** And when it does not, and a batch was open. */
  lemma KeptFits(n: nat, passes: seq<Pass>, i: nat)
    requires i + 1 < |passes| && var p := passes[|passes| - 1];
             !Cuts(p) && (p.report.Some? ==> p.report.value.KeyState?)
    requires var w := After(n, passes[..|passes| - 1]).wait;
             w.Some? && WaitFits(n, passes[..|passes| - 1], i, w.value)
    ensures var last := |passes| - 1;
            var w := Told(After(n, passes[..last]), passes[last].nowUs, passes[last].message, passes[last].report).wait;
            w.Some? && WaitFits(n, passes, i, w.value)
  {
    hide Shr, After;
    var last := |passes| - 1;
    SameLack(n, passes, last, i, last - 1);
    LackStep(n, passes, i);
  }

  lemma LackStep(n: nat, passes: seq<Pass>, i: nat)
    requires i + 1 < |passes|
    ensures var last := |passes| - 1;
            forall k, glyph :: Lacks(n, passes, i, last, k, glyph) <==>
              Lacks(n, passes, i, last - 1, k, glyph) && !Brings(passes[last], k, glyph)
  {
    hide Asks, Brings;
  }

  /** A batch is open after a run exactly when some pass opened one that is open since, and it waits for what that
      Begin batch named and no pass has brought. */
  lemma {:induction false} BatchLife(n: nat, passes: seq<Pass>)
    requires forall i :: 0 <= i < |passes| ==> passes[i].report.Some? ==> passes[i].report.value.KeyState?
    ensures After(n, passes).wait.Some? <==> exists i: nat :: OpenSince(n, passes, i)
    ensures forall i: nat :: OpenSince(n, passes, i) ==>
              After(n, passes).wait.Some? && WaitFits(n, passes, i, After(n, passes).wait.value)
  {
    hide Told, DoneAt, OpenSince, WaitFits, StillLacks;
    if passes == [] {
      NoneOpen(n);
      return;
    }
    var last := |passes| - 1;
    var p, before := passes[last], After(n, passes[..last]);
    var told := Told(before, p.nowUs, p.message, p.report).wait;
    assert After(n, passes).wait == DoneAt(told, p.nowUs);
    BatchLife(n, passes[..last]);
    if p.message.Some? && p.message.value.BeginBatch? {
      OpenedFits(n, passes);
      DoneIff(n, passes, last, told.value);
      OnlyLast(n, passes);
      assert OpenSince(n, passes, last) <==> StillLacks(n, passes, last, last);
    } else if Cuts(p) {
      OnlyLast(n, passes);
      CutShort(before, p);
    } else if before.wait.None? {
      OnlyEarlier(n, passes);
      NothingOpens(before, p);
    } else {
      var i: nat :| OpenSince(n, passes[..last], i);
      OnlyEarlier(n, passes);
      OneOpen(n, passes[..last], i);
      OpenIsPass(n, passes[..last], i);
      KeptFits(n, passes, i);
      DoneIff(n, passes, i, told.value);
      OpenBefore(n, passes, i);
    }
  }

  lemma NoneOpen(n: nat)
    ensures After(n, []).wait.None? && forall i: nat :: !OpenSince(n, [], i)
  {
  }

  /** A pass that cuts short leaves no batch but the one that it opens. */
  lemma OnlyLast(n: nat, passes: seq<Pass>)
    requires passes != [] && Cuts(passes[|passes| - 1])
    ensures var last := |passes| - 1;
            forall i: nat :: OpenSince(n, passes, i) <==>
              i == last && passes[last].message.value.BeginBatch? && StillLacks(n, passes, last, last)
  {
    hide StillLacks;
  }

  lemma CutShort(s: Scene, p: Pass)
    requires |s.faces| == |s.pips| && Cuts(p) && !p.message.value.BeginBatch?
    requires p.report.Some? ==> p.report.value.KeyState?
    ensures DoneAt(Told(s, p.nowUs, p.message, p.report).wait, p.nowUs).None?
  {
  }

  lemma NothingOpens(s: Scene, p: Pass)
    requires |s.faces| == |s.pips| && !Cuts(p) && s.wait.None? && (p.report.Some? ==> p.report.value.KeyState?)
    ensures DoneAt(Told(s, p.nowUs, p.message, p.report).wait, p.nowUs).None?
  {
  }

  lemma OnlyEarlier(n: nat, passes: seq<Pass>)
    requires passes != [] && !Cuts(passes[|passes| - 1])
    ensures forall i: nat :: OpenSince(n, passes, i) ==> i + 1 < |passes| && OpenSince(n, passes[..|passes| - 1], i)
  {
    hide StillLacks;
    forall i: nat | OpenSince(n, passes, i) ensures i + 1 < |passes| && OpenSince(n, passes[..|passes| - 1], i) {
      assert i < |passes| - 1;
      OpenBefore(n, passes, i);
    }
  }

  lemma OneOpen(n: nat, passes: seq<Pass>, i: nat)
    requires OpenSince(n, passes, i)
    ensures forall j: nat :: OpenSince(n, passes, j) ==> j == i
  {
    hide StillLacks;
  }

  lemma OpenIsPass(n: nat, passes: seq<Pass>, i: nat)
    requires OpenSince(n, passes, i)
    ensures i < |passes|
  {
  }

  /** Any run of the loop. The pad ends as the messages say, key by key, and its last drawing shows it but for the keys
      that a batch held. Whatever went over the lines went safely, and the newest frame of every key is queued, on the
      wire, or the last one its panel got. */
  method Run(n: nat, passes: seq<Pass>) returns (pad: MacroPad, missed: seq<set<nat>>)
    requires forall i :: 0 <= i < |passes| ==> passes[i].message.Some? ==> WholeGlyphs(passes[i].message.value)
    requires forall i :: 0 <= i < |passes| ==> passes[i].report.Some? ==> passes[i].report.value.KeyState?
    ensures fresh(pad) && pad.n == n && pad.Valid() && |pad.pad.tracks| == n && pad.SceneNow() == After(n, passes)
    ensures |missed| == |passes| && forall i :: 0 <= i < |passes| ==>
              missed[i] == if passes[i].message.Some? then Missed(After(n, passes[..i]), passes[i].message.value)
                  else {}
    ensures pad.batch.Some? <==> exists i: nat :: OpenSince(n, passes, i)
    ensures passes != [] ==> pad.dirty == {} && LastDrawn(pad, n, passes)
    ensures forall i :: 0 <= i < |pad.pad.lines.log| ==> Safe(pad.pad.lines.log[i])
    ensures forall k :: 0 <= k < n && pad.pad.tracks[k].newest.Some? ==>
              Standing(pad.pad.tracks[k]) == pad.pad.tracks[k].newest
    ensures forall k :: 0 <= k < n ==> Ascending(pad.pad.tracks[k].sent)
  {
    hide Pushes.Valid, KeyState.Valid, Pushes.QueueOk, MacroPad.SceneNow, MacroPad.Current, Passed, MacroPad.BatchOk,
      OpenSince;
    pad := new MacroPad(n);
    missed := [];
    for i := 0 to |passes|
      invariant pad.Valid() && pad.n == n && fresh(pad) && fresh(pad.keys) && fresh(pad.pad) && fresh(pad.cache)
      invariant fresh(pad.pad.panels) && fresh(pad.pad.bus) && fresh(pad.pad.lines)
      invariant pad.SceneNow() == After(n, passes[..i]) && (i > 0 ==> pad.dirty == {} && LastDrawn(pad, n, passes[..i]))
      invariant |missed| == i && forall j :: 0 <= j < i ==>
                  missed[j] == if passes[j].message.Some? then Missed(After(n, passes[..j]), passes[j].message.value)
                      else {}
    {
      assert passes[..i + 1][..i] == passes[..i];
      var now, late := pad.Step(passes[i].nowUs, passes[i].message, passes[i].report);
      missed := missed + [now];
    }
    assert passes[..|passes|] == passes;
    BatchLife(n, passes);
    pad.SceneIs();
    Standings(pad.pad);
  }

  /** Every key that no batch held in the last pass shows its face, in the blink phase of that pass. */
  ghost predicate LastDrawn(pad: MacroPad, n: nat, passes: seq<Pass>)
    reads pad, pad.pad, pad.keys
    requires passes != []
  {
    var last := passes[|passes| - 1];
    forall k :: 0 <= k < n && k !in HeldAt(After(n, passes[..|passes| - 1]), last.nowUs, last.message) ==>
      pad.Current(k, Phase(last.nowUs))
  }

  /** A frame of a held key is on the wire when Begin batch names it. The group ends badly, and the frame waits in the
      queue again while the batch is open. */
  method HeldFrameWaits(look: Look) returns (pad: MacroPad)
    requires look.writing && look.late
    ensures pad.Valid() && pad.batch.Some? && 0 in pad.batch.value.keys
    ensures |pad.pad.queued| == 1 && pad.pad.queued[0].Some?
  {
    hide Pushes.WireOk, Pushes.Valid, KeyState.Valid, InOrder;
    pad := new MacroPad(1);
    pad.RenderDirtyKeys(0);
    pad.pad.WaitsForWire(0);
    pad.StartPushes();
    assert pad.pad.active == [0] && Shr(1, 0) % 2 == 1;
    pad.BeginBatch(0, 1, 0);
    pad.pad.WaitsForWire(0);
    assert pad.pad.queued[0].None?;
    var done := pad.EndPushes(look);
    pad.pad.WaitsForWire(0);
  }

  lemma Standings(p: Pushes<Frame>)
    requires p.Valid()
    ensures p.lines.AllSafe() && |p.tracks| == p.n
    ensures forall k :: 0 <= k < p.n ==> InOrder(p.tracks[k])
  {
    forall k | 0 <= k < p.n
      ensures InOrder(p.tracks[k])
    {
      assert p.TrackOk(k);
    }
  }
}
