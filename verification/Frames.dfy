// driver/layers/frames.go: the host's record of the board's frame slots, a store that may evict the
// least recently used slot no key shows, and the flush that names one slot for each changed key.
module Frames {
  import opened Bits
  import opened Sizes

  const NO_SLOT := 255

  datatype ViewKind = Unknown | Blank | Key | Shift

  /** What one key shows. */
  datatype View = View(kind: ViewKind, color: nat, icon: nat, iconRef: string, iconText: string,
                       iconEmoji: string, round: bool, count: nat)

  const NOTHING_SENT := View(Unknown, 0, 0, "", "", "", false, 0)

  /** What one frame on the board shows: one picture over one color. */
  datatype FrameKey = FrameKey(ref: string, text: string, emoji: string, round: bool, color: nat)

  function FrameKeyOf(w: View): FrameKey {
    if w.kind == Blank || w.kind == Unknown then FrameKey("", "", "", false, 0)
    else if w.iconEmoji != "" then FrameKey("", w.iconText, w.iconEmoji, w.round, w.color)
    else if w.iconText != "" then FrameKey("", w.iconText, "", false, 0)
    else FrameKey(w.iconRef, "", "", false, w.color)
  }

  // ---- What a key looks like ----

  /** A picture as `renderIcon` draws it, with the colors it is blended with. */
  datatype Art =
    | NoArt
    | IconRound(ref: string, edge: nat)
    | WordTile(words: string)
    | EmojiTile(emoji: string, caption: string, strip: nat)
    | EmojiRound(emoji: string, caption: string, edge: nat)

  /** A picture over a color. A tile is opaque, so that no color shows behind it. */
  datatype Look = Look(art: Art, behind: nat)

  predicate Opaque(a: Art) { a.WordTile? || a.EmojiTile? }

  function Over(a: Art, color: nat): Look { Look(a, if Opaque(a) then 0 else color) }

  /** `renderIcon` for a picture that can be drawn; a file beside words or emoji is an error. */
  function RenderIcon(ref: string, text: string, emoji: string, round: bool, color: nat): Option<Art> {
    if ref != "" && (text != "" || emoji != "") then None
    else if emoji != "" then Some(if round then EmojiRound(emoji, text, color) else EmojiTile(emoji, text, color))
    else if text != "" then Some(WordTile(text))
    else if ref != "" then Some(IconRound(ref, color))
    else Some(NoArt)
  }

  /** What `prepare` sends for a key that is drawn on its own, apart from its pip. */
  function DrawnAlone(w: View): Look {
    if w.kind == Blank then Look(NoArt, 0)
    else
      match RenderIcon(w.iconRef, w.iconText, w.iconEmoji, w.round, w.color)
      case None => Look(NoArt, w.color)
      case Some(a) => Over(a, w.color)
  }

  /** What `storeFrame` puts in a slot for `k`. */
  function Stored(k: FrameKey): Look {
    match RenderIcon(k.ref, k.text, k.emoji, k.round, k.color)
    case None => Look(NoArt, k.color)
    case Some(a) => Over(a, if k.emoji != "" && !k.round then 0 else k.color)
  }

  /** A view of a valid document: a file has no words and no emoji beside it, and an unknown key has nothing. */
  predicate Proper(w: View) {
    && (w.iconRef != "" ==> w.iconText == "" && w.iconEmoji == "")
    && (w.kind == Unknown ==> w == NOTHING_SENT)
  }

  /** The stored frame looks as the key would if it were drawn on its own. */
  lemma FrameIsView(w: View)
    requires Proper(w)
    ensures Stored(FrameKeyOf(w)) == DrawnAlone(w)
  {
  }

  /** Two views share a frame exactly when they look the same. */
  lemma OneFrameOneLook(a: View, b: View)
    requires Proper(a) && Proper(b)
    ensures FrameKeyOf(a) == FrameKeyOf(b) <==> DrawnAlone(a) == DrawnAlone(b)
  {
  }

  /** Nothing is to be sent: the key has never shown anything and stays blank, or it looks right already. */
  predicate LooksRight(w: View, have: View, slot: nat) {
    if have.kind == Unknown then w.kind == Blank || w == NOTHING_SENT
    else w == have || (slot != NO_SLOT && DrawnAlone(w) == DrawnAlone(have) && w.count == have.count)
  }

  lemma SettledIff(w: View, have: View, slot: nat)
    requires Proper(w) && Proper(have)
    ensures Settled(w, have, slot) <==> LooksRight(w, have, slot)
  {
    hide FrameKeyOf, DrawnAlone;
    OneFrameOneLook(w, have);
  }

  ghost predicate AllProper(views: seq<View>) {
    forall i :: 0 <= i < |views| ==> Proper(views[i])
  }

  lemma StaysProper(want: seq<View>, before: seq<View>, after: seq<View>)
    requires |want| == |before| == |after| && AllProper(want) && AllProper(before)
    requires forall i :: 0 <= i < |after| ==> after[i] in {want[i], before[i], NOTHING_SENT}
    ensures AllProper(after)
  {
    assert Proper(NOTHING_SENT);
  }

  /** In every slot that is named the board holds what its key is to look like. */
  ghost predicate SlotsLookRight(slots: seq<nat>, want: seq<View>, onBoard: seq<Option<FrameKey>>)
    requires |slots| == |want|
  {
    forall i :: 0 <= i < |slots| && slots[i] != NO_SLOT ==>
      slots[i] < |onBoard| && onBoard[slots[i]].Some? && Stored(onBoard[slots[i]].value) == DrawnAlone(want[i])
  }

  lemma AllSettledIff(want: seq<View>, have: seq<View>, slots: seq<nat>)
    requires |want| == |have| == |slots| && AllProper(want) && AllProper(have)
    ensures forall i :: 0 <= i < |want| ==>
              (Settled(want[i], have[i], slots[i]) <==> LooksRight(want[i], have[i], slots[i]))
  {
    hide Settled, LooksRight, Proper;
    forall i | 0 <= i < |want| ensures Settled(want[i], have[i], slots[i]) <==> LooksRight(want[i], have[i], slots[i]) {
      SettledIff(want[i], have[i], slots[i]);
    }
  }

  // ---- The table ----

  /** What the table promises about itself, on its values. */
  ghost predicate Consistent(slotOf: map<FrameKey, nat>, keyOf: seq<Option<FrameKey>>, used: seq<nat>, tick: nat) {
    && |keyOf| == SLOT_COUNT && |used| == SLOT_COUNT
    && (forall k :: k in slotOf ==> slotOf[k] < SLOT_COUNT && keyOf[slotOf[k]] == Some(k))
    && (forall s :: 0 <= s < SLOT_COUNT && keyOf[s].Some? ==> keyOf[s].value in slotOf && slotOf[keyOf[s].value] == s)
    && (forall s :: 0 <= s < SLOT_COUNT ==> used[s] <= tick)
    && (forall s, t :: 0 <= s < t < SLOT_COUNT && keyOf[s].Some? && keyOf[t].Some? ==> used[s] != used[t])
  }

  ghost predicate Full(keyOf: seq<Option<FrameKey>>) {
    forall s :: 0 <= s < |keyOf| ==> keyOf[s].Some?
  }

  /** The slot an eviction takes: used before every other slot that is not pinned. */
  ghost predicate LeastRecent(s: nat, used: seq<nat>, pinned: set<nat>) {
    s < |used| && s !in pinned && forall t :: 0 <= t < |used| && t !in pinned ==> used[s] <= used[t]
  }

  class FrameTable {
    var slotOf: map<FrameKey, nat>
    const keyOf: array<Option<FrameKey>>
    const used: array<nat>
    var tick: nat

    ghost predicate Valid()
      reads this, keyOf, used
    {
      keyOf.Length == used.Length == SLOT_COUNT && Consistent(slotOf, keyOf[..], used[..], tick)
    }

    constructor ()
      ensures Valid() && slotOf == map[] && fresh(keyOf) && fresh(used)
      ensures forall s :: 0 <= s < SLOT_COUNT ==> keyOf[s] == None
    {
      slotOf, tick := map[], 0;
      keyOf := new Option<FrameKey>[SLOT_COUNT](_ => None);
      used := new nat[SLOT_COUNT](_ => 0);
    }

    /** The slot that holds `k`, marked as used. */
    method Lookup(k: FrameKey) returns (slot: nat, ok: bool)
      requires Valid()
      modifies this`tick, used
      ensures Valid() && ok == (k in slotOf) && (ok ==> slot == slotOf[k])
      ensures tick == old(tick) + if ok then 1 else 0
      ensures used[..] == if ok then old(used[..])[slot := tick] else old(used[..])
    {
      ok, slot := k in slotOf, 0;
      if ok {
        slot := slotOf[k];
        tick := tick + 1;
        used[slot] := tick;
      }
    }

    method LowestFree() returns (slot: int)
      requires Valid()
      ensures slot < 0 <==> Full(keyOf[..])
      ensures slot >= 0 ==> slot < SLOT_COUNT && keyOf[slot] == None && forall s :: 0 <= s < slot ==> keyOf[s].Some?
    {
      for i := 0 to SLOT_COUNT
        invariant forall s :: 0 <= s < i ==> keyOf[s].Some?
      {
        if keyOf[i] == None {
          return i;
        }
      }
      return -1;
    }

    method Oldest(pinned: set<nat>) returns (slot: int)
      requires Valid()
      ensures slot < 0 <==> forall s :: 0 <= s < SLOT_COUNT ==> s in pinned
      ensures slot >= 0 ==> LeastRecent(slot, used[..], pinned)
    {
      slot := -1;
      for i := 0 to SLOT_COUNT
        invariant slot < 0 <==> forall s :: 0 <= s < i ==> s in pinned
        invariant slot >= 0 ==> slot < i && slot !in pinned
        invariant slot >= 0 ==> forall s :: 0 <= s < i && s !in pinned ==> used[slot] <= used[s]
      {
        if i in pinned {
          continue;
        }
        if slot < 0 || used[i] < used[slot] {
          slot := i;
        }
      }
    }

    /** Picks a slot for `k` and records it: the lowest free one, or with `evict` the least recent unpinned one. */
    method Claim(k: FrameKey, evict: bool, pinned: set<nat>) returns (slot: nat, ok: bool)
      requires Valid() && k !in slotOf
      modifies this`tick, this`slotOf, used, keyOf
      ensures Valid()
      ensures !ok ==> unchanged(this, used, keyOf) && Full(keyOf[..])
                      && (!evict || forall s :: 0 <= s < SLOT_COUNT ==> s in pinned)
      ensures ok ==> slot < SLOT_COUNT && tick == old(tick) + 1
      ensures ok ==> keyOf[..] == old(keyOf[..])[slot := Some(k)] && used[..] == old(used[..])[slot := tick]
      ensures ok && old(Full(keyOf[..])) ==> evict && LeastRecent(slot, old(used[..]), pinned)
      ensures ok && !old(Full(keyOf[..])) ==>
                old(keyOf[slot]) == None && forall s :: 0 <= s < slot ==> old(keyOf[s]).Some?
    {
      var at := LowestFree();
      if at < 0 {
        if !evict {
          return 0, false;
        }
        at := Oldest(pinned);
        if at < 0 {
          return 0, false;
        }
        slotOf := slotOf - {keyOf[at].value};
      }
      ok, slot := true, at;
      keyOf[slot] := Some(k);
      slotOf := slotOf[k := slot];
      tick := tick + 1;
      used[slot] := tick;
    }

    /** Forgets the frame in `slot`, after a store that failed. */
    method Release(slot: nat)
      requires Valid() && slot < SLOT_COUNT
      modifies this`slotOf, keyOf
      ensures Valid() && keyOf[..] == old(keyOf[..])[slot := None]
    {
      if keyOf[slot].Some? {
        slotOf := slotOf - {keyOf[slot].value};
        keyOf[slot] := None;
      }
    }
  }

  // ---- The board and the flush ----

  /** The board's slots. A store may fail, and then its own slot may hold anything. */
  class Board {
    const slots: array<Option<FrameKey>>
    // How many stores failed.
    ghost var refused: nat

    constructor ()
      ensures slots.Length == SLOT_COUNT && fresh(slots)
    {
      refused := 0;
      slots := new Option<FrameKey>[SLOT_COUNT](_ => None);
    }

    method StoreFrame(slot: nat, k: FrameKey) returns (ok: bool)
      requires slots.Length == SLOT_COUNT && slot < SLOT_COUNT
      modifies slots, this`refused
      ensures refused == old(refused) + if ok then 0 else 1
      ensures ok ==> slots[..] == old(slots[..])[slot := Some(k)]
      ensures !ok ==> forall s :: 0 <= s < SLOT_COUNT && s != slot ==> slots[s] == old(slots[s])
    {
      ok := *;
      if ok {
        slots[slot] := Some(k);
      } else {
        var junk: Option<FrameKey> := *;
        slots[slot] := junk;
        refused := refused + 1;
      }
    }
  }

  /** Every frame on record is on the board. */
  ghost predicate Mirrors(keyOf: seq<Option<FrameKey>>, slots: seq<Option<FrameKey>>) {
    |keyOf| == |slots| == SLOT_COUNT && forall s :: 0 <= s < SLOT_COUNT && keyOf[s].Some? ==> slots[s] == keyOf[s]
  }

  /** A key that shows a slot shows the frame on record there. */
  ghost predicate ShownHeld(shown: seq<View>, slotShown: seq<nat>, keyOf: seq<Option<FrameKey>>) {
    && |shown| == |slotShown| == KEY_COUNT && |keyOf| == SLOT_COUNT
    && forall i :: 0 <= i < KEY_COUNT && slotShown[i] != NO_SLOT ==>
         slotShown[i] < SLOT_COUNT && keyOf[slotShown[i]] == Some(FrameKeyOf(shown[i]))
  }

  /** The key needs no message for `w`: it shows it already, or was never drawn and stays blank. */
  predicate Settled(w: View, have: View, slot: nat) {
    || w == have || (w.kind == Blank && have.kind == Unknown)
    || (have.kind != Unknown && slot != NO_SLOT && FrameKeyOf(w) == FrameKeyOf(have) && w.count == have.count)
  }

  class Controller {
    const table: FrameTable
    const board: Board
    var shown: seq<View>
    var slotShown: seq<nat>

    ghost predicate Valid()
      reads this, table, table.keyOf, table.used, board.slots
    {
      && table.Valid() && board.slots != table.keyOf && board.slots.Length == SLOT_COUNT
      && Mirrors(table.keyOf[..], board.slots[..]) && ShownHeld(shown, slotShown, table.keyOf[..])
    }

    constructor ()
      ensures Valid() && fresh(table) && fresh(table.keyOf) && fresh(table.used) && fresh(board.slots)
      ensures AllProper(shown)
    {
      table := new FrameTable();
      board := new Board();
      shown := seq(KEY_COUNT, _ => NOTHING_SENT);
      slotShown := seq(KEY_COUNT, _ => NO_SLOT);
    }

    /** The slots that the keys show now. */
    function Pinned(): (r: set<nat>)
      reads this
      ensures forall i :: 0 <= i < |slotShown| ==> slotShown[i] in r
      ensures |slotShown| <= KEY_COUNT ==> |r| <= KEY_COUNT
    {
      SetOfSeq(slotShown);
      set i | 0 <= i < |slotShown| :: slotShown[i]
    }

    /** `storeFrame`: claims a slot for `k` and stores it there; a store that fails gives the slot up. */
    method StoreFrame(k: FrameKey, evict: bool) returns (slot: nat, ok: bool)
      requires Valid() && k !in table.slotOf
      modifies table, table.keyOf, table.used, board.slots, board`refused
      ensures Valid()
      ensures board.refused == old(board.refused) + if ok || table.tick == old(table.tick) then 0 else 1
      ensures ok ==> slot < SLOT_COUNT && table.keyOf[..] == old(table.keyOf[..])[slot := Some(k)]
      ensures evict ==> table.tick != old(table.tick)
      ensures !ok ==> old(table.keyOf[..]) == table.keyOf[..]
                      || (slot < SLOT_COUNT && table.keyOf[..] == old(table.keyOf[..])[slot := None])
      ensures table.tick == old(table.tick) ==>
                unchanged(table.keyOf) && unchanged(table.used) && !ok && Full(table.keyOf[..])
      ensures table.tick != old(table.tick) ==>
                table.tick == old(table.tick) + 1 && slot < SLOT_COUNT
                && table.used[..] == old(table.used[..])[slot := table.tick]
      ensures table.tick != old(table.tick) && old(Full(table.keyOf[..])) ==>
                evict && LeastRecent(slot, old(table.used[..]), Pinned())
      ensures table.tick != old(table.tick) && !old(Full(table.keyOf[..])) ==> old(table.keyOf[slot]) == None
    {
      SomeUnpinned(Pinned());
      slot, ok := table.Claim(k, evict, Pinned());
      if ok {
        ok := board.StoreFrame(slot, k);
        if !ok {
          table.Release(slot);
        }
      }
    }

    /** The slot that holds `k`, storing it when the board lacks it. Slots used after `start` keep their frames. */
    method SlotFor(k: FrameKey, ghost start: nat, ghost touched: set<nat>) returns (slot: nat, ok: bool, stores: nat)
      requires Valid() && start <= table.tick
      requires TouchedSince(table.used[..], start, touched) && |touched| < KEY_COUNT
      modifies table, table.keyOf, table.used, board.slots, board`refused
      ensures Valid() && start <= table.tick
      ensures ok <==> board.refused == old(board.refused)
      ensures board.refused >= old(board.refused)
      ensures ok ==> slot < SLOT_COUNT && table.keyOf[slot] == Some(k) && table.used[slot] > start
      ensures forall s :: 0 <= s < SLOT_COUNT && old(table.keyOf[s]).Some? && old(table.used[s]) > start ==>
                table.keyOf[s] == old(table.keyOf[s]) && table.used[s] > start
      ensures TouchedSince(table.used[..], start, touched + {slot})
      ensures k in old(table.slotOf) ==>
                ok && stores == 0 && table.slotOf == old(table.slotOf) && unchanged(board.slots)
    {
      slot, ok := table.Lookup(k);
      stores := 0;
      if !ok {
        OldestIsUntouched(table.used[..], Pinned(), touched, start);
        slot, ok := StoreFrame(k, true);
        stores := 1;
      }
    }

    /** For each changed key the slot that holds its frame, or NO_SLOT when it cannot be stored. */
    method ChooseSlots(want: seq<View>, changed: seq<nat>) returns (slots: seq<nat>, stores: nat)
      requires Valid() && |want| == KEY_COUNT && IsKeyList(changed)
      modifies table, table.keyOf, table.used, board.slots, board`refused
      ensures Valid() && |slots| == KEY_COUNT && Chosen(slots, want, table.keyOf[..])
      ensures forall i :: 0 <= i < KEY_COUNT && slots[i] != NO_SLOT ==> i in changed
      ensures board.refused == old(board.refused) ==> forall i :: i in changed ==> slots[i] != NO_SLOT
      ensures board.refused >= old(board.refused)
      ensures AllHeld(want, changed, old(table.slotOf)) ==>
                stores == 0 && unchanged(board.slots) && forall i :: i in changed ==> slots[i] != NO_SLOT
    {
      hide FrameKeyOf, Mirrors, ShownHeld, Consistent;
      slots, stores := seq(KEY_COUNT, _ => NO_SLOT), 0;
      ghost var start := table.tick;
      ghost var touched: set<nat> := {};
      NoneTouched(table);
      for j := 0 to |changed|
        invariant Valid() && |slots| == KEY_COUNT && start <= table.tick
        invariant Chosen(slots, want, table.keyOf[..]) && ChosenSince(slots, table.used[..], start)
        invariant TouchedSince(table.used[..], start, touched) && |touched| <= j
        invariant forall i :: 0 <= i < KEY_COUNT && slots[i] != NO_SLOT ==> i in changed
        invariant board.refused >= old(board.refused)
        invariant board.refused == old(board.refused) ==> forall k :: 0 <= k < j ==> slots[changed[k]] != NO_SLOT
        invariant AllHeld(want, changed, old(table.slotOf)) ==>
                    stores == 0 && table.slotOf == old(table.slotOf) && unchanged(board.slots)
                    && forall k :: 0 <= k < j ==> slots[changed[k]] != NO_SLOT
      {
        var slot, ok, stored := SlotFor(FrameKeyOf(want[changed[j]]), start, touched);
        stores := stores + stored;
        touched := touched + {slot};
        if ok {
          slots := slots[changed[j] := slot];
        }
      }
    }

    /** The keys that need a message. A key whose picture and pip stay as they are only takes its new view. */
    method FindChanged(want: seq<View>) returns (changed: seq<nat>)
      requires Valid() && |want| == KEY_COUNT
      modifies this`shown
      ensures Valid() && IsKeyList(changed)
      ensures forall i :: 0 <= i < KEY_COUNT ==> (i in changed <==> !Settled(want[i], old(shown[i]), slotShown[i]))
      ensures forall i :: 0 <= i < KEY_COUNT && i in changed ==> shown[i] == old(shown[i])
      ensures forall i :: 0 <= i < KEY_COUNT && i !in changed ==>
                shown[i] == want[i] || Untouched(want[i], old(shown[i]), shown[i])
    {
      hide FrameKeyOf, Consistent, Mirrors;
      changed := [];
      for i := 0 to KEY_COUNT
        invariant |shown| == KEY_COUNT && ShownHeld(shown, slotShown, table.keyOf[..])
        invariant IsKeyList(changed) && |changed| <= i && forall j :: 0 <= j < |changed| ==> changed[j] < i
        invariant forall k :: 0 <= k < i ==> (k in changed <==> !Settled(want[k], old(shown[k]), slotShown[k]))
        invariant forall k :: 0 <= k < i && k !in changed ==>
                    shown[k] == want[k] || Untouched(want[k], old(shown[k]), shown[k])
        invariant forall k :: 0 <= k < KEY_COUNT && (k >= i || k in changed) ==> shown[k] == old(shown[k])
      {
        var w, have := want[i], shown[i];
        if w == have || (w.kind == Blank && have.kind == Unknown) {
          continue;
        }
        if have.kind != Unknown && slotShown[i] != NO_SLOT && FrameKeyOf(w) == FrameKeyOf(have)
            && w.count == have.count {
          shown := shown[i := w];
          continue;
        }
        changed := changed + [i];
      }
    }

    /** After the Show: the keys it named show what they want, or after an error nobody knows what. */
    method NoteShown(want: seq<View>, slots: seq<nat>, failed: bool)
      requires Valid() && |want| == |slots| == KEY_COUNT && Chosen(slots, want, table.keyOf[..])
      modifies this`shown, this`slotShown
      ensures Valid()
      ensures forall i :: 0 <= i < KEY_COUNT ==>
                (shown[i], slotShown[i]) == if slots[i] == NO_SLOT then (old(shown[i]), old(slotShown[i]))
                                            else if failed then (NOTHING_SENT, NO_SLOT) else (want[i], slots[i])
    {
      hide FrameKeyOf, Consistent, Mirrors;
      for i := 0 to KEY_COUNT
        invariant ShownHeld(shown, slotShown, table.keyOf[..])
        invariant forall k :: 0 <= k < KEY_COUNT ==>
                    (shown[k], slotShown[k]) == if k >= i || slots[k] == NO_SLOT then (old(shown[k]), old(slotShown[k]))
                                                else if failed then (NOTHING_SENT, NO_SLOT) else (want[k], slots[k])
      {
        if slots[i] != NO_SLOT {
          shown := shown[i := if failed then NOTHING_SENT else want[i]];
          slotShown := slotShown[i := if failed then NO_SLOT else slots[i]];
        }
      }
    }

    /** Draws a key whose frame cannot be stored with a glyph and a key state, which may fail. */
    method DrawFallback(i: nat, w: View) returns (failed: bool)
      requires Valid() && i < KEY_COUNT
      modifies this`shown, this`slotShown
      ensures Valid() && slotShown == old(slotShown)[i := NO_SLOT]
      ensures shown == old(shown)[i := if failed then NOTHING_SENT else w]
    {
      failed := *;
      shown := shown[i := if failed then NOTHING_SENT else w];
      slotShown := slotShown[i := NO_SLOT];
    }

    /** Every changed key that got no slot is drawn on its own. */
    method DrawFallbacks(want: seq<View>, changed: seq<nat>, slots: seq<nat>)
      requires Valid() && |want| == |slots| == KEY_COUNT && IsKeyList(changed)
      modifies this`shown, this`slotShown
      ensures Valid()
      ensures forall i :: 0 <= i < KEY_COUNT && !(i in changed && slots[i] == NO_SLOT) ==>
                shown[i] == old(shown[i]) && slotShown[i] == old(slotShown[i])
      ensures forall i :: 0 <= i < KEY_COUNT && i in changed && slots[i] == NO_SLOT ==>
                (shown[i] == want[i] || shown[i] == NOTHING_SENT) && slotShown[i] == NO_SLOT
    {
      hide FrameKeyOf, Consistent, Mirrors;
      for j := 0 to |changed|
        invariant Valid()
        invariant forall i :: 0 <= i < KEY_COUNT && !(i in changed && slots[i] == NO_SLOT) ==>
                    shown[i] == old(shown[i]) && slotShown[i] == old(slotShown[i])
        invariant forall k :: 0 <= k < j && slots[changed[k]] == NO_SLOT ==>
                    (shown[changed[k]] == want[changed[k]] || shown[changed[k]] == NOTHING_SENT)
                    && slotShown[changed[k]] == NO_SLOT
      {
        if slots[changed[j]] == NO_SLOT {
          var failed := DrawFallback(changed[j], want[changed[j]]);
        }
      }
    }

    /** `flushFrames`: at most one Show, and every slot it names holds the frame its key wants. */
    method FlushFrames(want: seq<View>) returns (show: Option<Show>, stores: nat)
      requires Valid() && |want| == KEY_COUNT
      modifies this, table, table.keyOf, table.used, board.slots, board`refused
      ensures Valid()
      ensures show.Some? ==>
                && |show.value.slots| == |show.value.counts| == KEY_COUNT
                   && HeldByBoard(show.value.slots, want, board.slots[..])
                && forall i :: 0 <= i < KEY_COUNT && show.value.slots[i] != NO_SLOT ==>
                     !Settled(want[i], old(shown[i]), old(slotShown[i]))
                     && show.value.counts[i] == (if want[i].count < 255 then want[i].count else 255)
      ensures show.Some? ==> forall i :: 0 <= i < KEY_COUNT && show.value.slots[i] == NO_SLOT ==>
                               show.value.counts[i] == 0
      ensures AllProper(want) && show.Some? ==> SlotsLookRight(show.value.slots, want, board.slots[..])
      ensures AllProper(want) && AllProper(old(shown)) ==>
                forall i :: 0 <= i < KEY_COUNT ==>
                  (Settled(want[i], old(shown[i]), old(slotShown[i]))
                   <==> LooksRight(want[i], old(shown[i]), old(slotShown[i])))
      ensures AllProper(want) && AllProper(old(shown)) ==> AllProper(shown)
      ensures forall i :: 0 <= i < KEY_COUNT ==>
                if Settled(want[i], old(shown[i]), old(slotShown[i]))
                then slotShown[i] == old(slotShown[i])
                    && (shown[i] == want[i] || Untouched(want[i], old(shown[i]), shown[i]))
                else shown[i] == want[i] || (shown[i] == NOTHING_SENT && slotShown[i] == NO_SLOT)
      ensures board.refused == old(board.refused) ==>
                forall i :: 0 <= i < KEY_COUNT && !Settled(want[i], old(shown[i]), old(slotShown[i])) ==>
                  show.Some? && show.value.slots[i] != NO_SLOT
      ensures (forall i :: 0 <= i < KEY_COUNT ==> FrameKeyOf(want[i]) in old(table.slotOf)) ==>
                stores == 0 && unchanged(board.slots)
                && forall i :: 0 <= i < KEY_COUNT && !Settled(want[i], old(shown[i]), old(slotShown[i])) ==>
                     show.Some? && show.value.slots[i] != NO_SLOT
    {
      hide FrameKeyOf, Consistent, Mirrors, Settled, LooksRight, Proper, DrawnAlone, Stored, HeldByBoard,
           SlotsLookRight,
        Chosen, ShowOf;
      if AllProper(want) && AllProper(shown) {
        AllSettledIff(want, shown, slotShown);
      }
      var changed := FindChanged(want);
      var slots;
      slots, stores := ChooseSlots(want, changed);
      ChosenIsHeld(slots, want, table.keyOf[..], board.slots[..]);
      show := None;
      if exists j :: 0 <= j < |changed| && slots[changed[j]] != NO_SLOT {
        show := Some(ShowOf(want, slots));
        var failed := *;
        NoteShown(want, slots, failed);
      }
      DrawFallbacks(want, changed, slots);
      if AllProper(want) && AllProper(old(shown)) {
        StaysProper(want, old(shown), shown);
      }
    }

    /** One frame of `preloadPass`: it is stored when the table lacks it and has a slot free. */
    method PreloadOne(k: FrameKey)
      requires Valid()
      modifies table, table.keyOf, table.used, board.slots, board`refused
      ensures Valid() && board.refused >= old(board.refused)
      ensures forall f :: f in old(table.slotOf) ==> f in table.slotOf && table.slotOf[f] == old(table.slotOf[f])
      ensures forall f :: f in table.slotOf ==> f in old(table.slotOf) || f == k
      ensures old(Full(table.keyOf[..])) ==> table.slotOf == old(table.slotOf) && Full(table.keyOf[..])
      ensures board.refused == old(board.refused) ==> k in table.slotOf || Full(table.keyOf[..])
    {
      hide Mirrors, ShownHeld;
      if k in table.slotOf {
        return;
      }
      ghost var before, frames := table.keyOf[..], table.slotOf;
      var slot, ok := StoreFrame(k, false);
      ghost var after := table.keyOf[..];
      assert ok ==> after[slot] == Some(k);
      assert forall f :: f in frames ==> after[frames[f]] == Some(f);
      forall f | f in table.slotOf && f !in frames ensures f == k {
        assert after[table.slotOf[f]] == Some(f);
      }
    }

    /** `preloadPass`: stores the frames the table lacks while a slot is free, and evicts none. The first of the list
        come first: what the table gets is not behind a frame that it lacks. */
    method PreloadPass(needed: seq<FrameKey>)
      requires Valid()
      modifies table, table.keyOf, table.used, board.slots, board`refused
      ensures Valid()
      ensures forall k :: k in old(table.slotOf) ==> k in table.slotOf && table.slotOf[k] == old(table.slotOf[k])
      ensures forall k :: k in table.slotOf ==> k in old(table.slotOf) || k in needed
      ensures board.refused == old(board.refused) ==>
                Full(table.keyOf[..]) || forall j :: 0 <= j < |needed| ==> needed[j] in table.slotOf
      ensures board.refused == old(board.refused) ==>
                InTurn(needed, |needed|, old(table.slotOf.Keys), table.slotOf.Keys)
    {
      hide Mirrors, ShownHeld, Consistent;
      for j := 0 to |needed|
        invariant Valid() && board.refused >= old(board.refused)
        invariant forall k :: k in old(table.slotOf) ==> k in table.slotOf && table.slotOf[k] == old(table.slotOf[k])
        invariant forall k :: k in table.slotOf ==> k in old(table.slotOf) || k in needed[..j]
        invariant board.refused == old(board.refused) ==>
                    Full(table.keyOf[..]) || forall i :: 0 <= i < j ==> needed[i] in table.slotOf
        invariant board.refused == old(board.refused) ==>
                    InTurn(needed, j, old(table.slotOf.Keys), table.slotOf.Keys)
      {
        assert needed[..j + 1] == needed[..j] + [needed[j]];
        ghost var before := table.slotOf.Keys;
        PreloadOne(needed[j]);
        if board.refused == old(board.refused) {
          NextInTurn(needed, j, old(table.slotOf.Keys), before, table.slotOf.Keys);
        }
      }
    }
  }

  /** Of the first `n` frames, what is new in the table was not behind one that the table lacks. */
  ghost predicate InTurn(needed: seq<FrameKey>, n: nat, before: set<FrameKey>, now: set<FrameKey>) {
    n <= |needed|
    && forall i :: 0 <= i < n && needed[i] !in now ==>
         forall k :: k in now && k !in before ==> k in needed[..i]
  }

  lemma NextInTurn(needed: seq<FrameKey>, j: nat, start: set<FrameKey>, before: set<FrameKey>, now: set<FrameKey>)
    requires j < |needed| && InTurn(needed, j, start, before) && before <= now <= before + {needed[j]}
    requires (forall i :: 0 <= i < j ==> needed[i] in before) || now == before
    requires forall k :: k in before && k !in start ==> k in needed[..j]
    ensures InTurn(needed, j + 1, start, now)
  {
  }

  datatype Show = Show(slots: seq<nat>, counts: seq<nat>)

  /** A key that was never drawn and should be blank is left alone. */
  predicate Untouched(w: View, before: View, after: View) {
    w.kind == Blank && before.kind == Unknown && after == before
  }

  /** The board holds, in every slot that is named, the frame that its key wants. */
  ghost predicate HeldByBoard(slots: seq<nat>, want: seq<View>, onBoard: seq<Option<FrameKey>>)
    requires |slots| == |want|
  {
    forall i :: 0 <= i < |slots| && slots[i] != NO_SLOT ==>
      slots[i] < |onBoard| && onBoard[slots[i]] == Some(FrameKeyOf(want[i]))
  }

  /** The table has the frame of every one of these keys. */
  ghost predicate AllHeld(want: seq<View>, keys: seq<nat>, slotOf: map<FrameKey, nat>) {
    forall j :: 0 <= j < |keys| && keys[j] < |want| ==> FrameKeyOf(want[keys[j]]) in slotOf
  }

  predicate IsKeyList(keys: seq<nat>) {
    |keys| <= KEY_COUNT && (forall j :: 0 <= j < |keys| ==> keys[j] < KEY_COUNT)
    && forall j, k :: 0 <= j < k < |keys| ==> keys[j] < keys[k]
  }

  /** Every slot that is named holds the frame its key wants. */
  ghost predicate Chosen(slots: seq<nat>, want: seq<View>, keyOf: seq<Option<FrameKey>>) {
    && |slots| == |want| == KEY_COUNT && |keyOf| == SLOT_COUNT
    && forall i :: 0 <= i < KEY_COUNT && slots[i] != NO_SLOT ==>
         slots[i] < SLOT_COUNT && keyOf[slots[i]] == Some(FrameKeyOf(want[i]))
  }

  /** The Show for these slots: a key that is not named has no count, and no count is above 255. */
  function ShowOf(want: seq<View>, slots: seq<nat>): (r: Show)
    requires |want| == |slots| == KEY_COUNT
    ensures r.slots == slots && |r.counts| == KEY_COUNT
    ensures forall i :: 0 <= i < KEY_COUNT ==>
              r.counts[i] == if slots[i] == NO_SLOT then 0 else if want[i].count < 255 then want[i].count else 255
  {
    Show(slots, seq(KEY_COUNT, i requires 0 <= i < KEY_COUNT =>
      if slots[i] == NO_SLOT then 0 else if want[i].count < 255 then want[i].count else 255))
  }

  lemma ChosenIsHeld(slots: seq<nat>, want: seq<View>, keyOf: seq<Option<FrameKey>>, onBoard: seq<Option<FrameKey>>)
    requires Chosen(slots, want, keyOf) && Mirrors(keyOf, onBoard)
    ensures HeldByBoard(slots, want, onBoard) && (AllProper(want) ==> SlotsLookRight(slots, want, onBoard))
  {
    hide FrameKeyOf, DrawnAlone, Stored, Proper;
    if AllProper(want) {
      HeldLooksRight(slots, want, onBoard);
    }
  }

  lemma HeldLooksRight(slots: seq<nat>, want: seq<View>, onBoard: seq<Option<FrameKey>>)
    requires |slots| == |want| && HeldByBoard(slots, want, onBoard) && AllProper(want)
    ensures SlotsLookRight(slots, want, onBoard)
  {
    hide FrameKeyOf, DrawnAlone, Stored;
    forall i | 0 <= i < |slots| && slots[i] != NO_SLOT
      ensures Stored(onBoard[slots[i]].value) == DrawnAlone(want[i])
    {
      FrameIsView(want[i]);
    }
  }

  /** Every slot that is named was used after tick `start`. */
  ghost predicate ChosenSince(slots: seq<nat>, used: seq<nat>, start: nat) {
    forall i :: 0 <= i < |slots| && slots[i] != NO_SLOT ==> slots[i] < |used| && used[slots[i]] > start
  }

  /** `touched` has every slot used after tick `start`. */
  ghost predicate TouchedSince(used: seq<nat>, start: nat, touched: set<nat>) {
    forall s :: 0 <= s < |used| && used[s] > start ==> s in touched
  }

  /** Six keys cannot pin every slot. */
  lemma SomeUnpinned(pinned: set<nat>)
    ensures |pinned| <= KEY_COUNT ==> exists s: nat :: s < SLOT_COUNT && s !in pinned
  {
    if |pinned| <= KEY_COUNT && forall s: nat :: s < SLOT_COUNT ==> s in pinned {
      CountBelow(SLOT_COUNT, pinned);
    }
  }

  lemma NoneTouched(t: FrameTable)
    requires t.Valid()
    ensures TouchedSince(t.used[..], t.tick, {})
  {
  }

  lemma {:induction false} CountBelow(n: nat, s: set<nat>)
    requires forall x: nat :: x < n ==> x in s
    ensures |s| >= n
  {
    if n > 0 {
      var last: nat := n - 1;
      CountBelow(n - 1, s - {last});
    }
  }

  /** 52 slots are more than 6 pinned and 5 touched: the slot an eviction takes was not touched. */
  lemma OldestIsUntouched(used: seq<nat>, pinned: set<nat>, touched: set<nat>, start: nat)
    requires |used| == SLOT_COUNT && TouchedSince(used, start, touched) && |pinned| <= KEY_COUNT
             && |touched| < KEY_COUNT
    ensures forall s: nat :: LeastRecent(s, used, pinned) ==> used[s] <= start
  {
    assert |pinned + touched| <= |pinned| + |touched|;
    if forall s: nat :: s < SLOT_COUNT ==> s in pinned + touched {
      CountBelow(SLOT_COUNT, pinned + touched);
    } else {
      var s: nat :| s < SLOT_COUNT && s !in pinned + touched;
      assert used[s] <= start;
    }
  }

  lemma {:induction false} SetOfSeq(s: seq<nat>)
    ensures |set i | 0 <= i < |s| :: s[i]| <= |s|
  {
    if s != [] {
      var n := |s| - 1;
      SetOfSeq(s[..n]);
      var init := set i | 0 <= i < n :: s[..n][i];
      assert (set i | 0 <= i < |s| :: s[i]) == init + {s[n]} by {
        forall x | x in set i | 0 <= i < |s| :: s[i] ensures x in init + {s[n]} {
          var i :| 0 <= i < |s| && s[i] == x;
          assert i < n ==> s[..n][i] == x;
        }
      }
    }
  }
}
