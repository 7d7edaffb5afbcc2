// driver/transport/reconnect.go and firmware/frame_cache.py: the frames that a host remembers, the
// board that may hold them, and the generation that says which connection got which frame.
//
// Every method below runs under sendMu. A disconnect takes only mu, so it may come at any point where
// mu is free: `Interfere` stands at each such point and may drop the device.
module Reconnect {
  import opened Bits
  import opened Sizes

  const KEYS := 8

  /** One frame: a color, and the glyph composed over it. */
  datatype Frame = Frame(color: nat, glyph: Option<seq<byte>>)

  /** The link to a board: every write goes through, none does, or each as it may. */
  datatype Link = Up | Broken | Flaky

  /** The frame cache of one connected board. */
  class Board {
    var slots: map<nat, Frame>
    var link: Link

    constructor (slots: map<nat, Frame>)
      ensures this.slots == slots && link == Flaky
    {
      this.slots, link := slots, Flaky;
    }

    /** A Store frame is applied when it has arrived whole, or not at all. */
    method Store(slot: nat, f: Frame) returns (ok: bool, applied: bool)
      modifies this`slots
      ensures slots == if applied then old(slots)[slot := f] else old(slots)
      ensures (ok ==> applied) && (link == Up ==> ok) && (link == Broken ==> !applied)
    {
      applied, ok := *, *;
      applied := link == Up || (applied && link == Flaky);
      ok := link == Up || (ok && applied);
      if applied {
        slots := slots[slot := f];
      }
    }
  }

  /** `frameRec`: a frame, and the connection whose board was last sent it. */
  class FrameRec {
    const frame: Frame
    var gen: nat

    constructor (frame: Frame)
      ensures this.frame == frame && gen == 0
    {
      this.frame, gen := frame, 0;
    }
  }

  // ---- What goes over the links ----

  /** A board with anything in its slots connects; it goes away; the record of a slot counts as held by nobody;
      a frame is written, and the write is applied, and reported as done, or not; a Show is sent. */
  datatype Event =
    | Joined(contents: map<nat, Frame>)
    | Gone
    | Forgot(slot: nat)
    | Wrote(slot: nat, frame: Frame, applied: bool, ok: bool)
    | Showed(slots: seq<nat>, counts: Option<seq<nat>>)

  /** What the events make of the newest board: what its slots hold, and which of them are known to. */
  datatype World = World(connected: bool, joins: nat, board: map<nat, Frame>, current: set<nat>)

  const START := World(false, 0, map[], {})

  function Next(w: World, e: Event): World {
    match e
    case Joined(contents) => World(true, w.joins + 1, contents, {})
    case Gone => w.(connected := false)
    case Forgot(slot) => w.(current := w.current - {slot})
    case Wrote(slot, frame, applied, ok) =>
      w.(board := if applied then w.board[slot := frame] else w.board,
         current := if ok then w.current + {slot} else w.current)
    case Showed(_, _) => w
  }

  function Then(w: World, ev: seq<Event>): World {
    if ev == [] then w else Next(Then(w, ev[..|ev| - 1]), ev[|ev| - 1])
  }

  lemma ThenOne(w: World, ev: seq<Event>, e: Event)
    ensures Then(w, ev + [e]) == Next(Then(w, ev), e) && Then(w, []) == w && Then(w, [e]) == Next(w, e)
  {
    assert (ev + [e])[..|ev|] == ev && [e][..0] == [];
  }

  lemma {:induction false} ThenJoin(w: World, a: seq<Event>, b: seq<Event>)
    ensures Then(w, a + b) == Then(Then(w, a), b)
    decreases |b|
  {
    if b == [] {
      assert a + b == a;
    } else {
      assert (a + b)[..|a + b| - 1] == a + b[..|b| - 1];
      ThenJoin(w, a, b[..|b| - 1]);
    }
  }

  function Members(s: seq<nat>): set<nat> {
    set k | k in s
  }

  predicate AllOk(ev: seq<Event>) {
    forall i :: 0 <= i < |ev| && ev[i].Wrote? ==> ev[i].ok
  }

  predicate HasWrite(ev: seq<Event>) {
    exists i :: 0 <= i < |ev| && ev[i].Wrote?
  }

  /** Writes of frames on record to slots in `which`, and nothing else but that the board may go away. */
  predicate Stores(ev: seq<Event>, frames: map<nat, Frame>, which: set<nat>) {
    forall i :: 0 <= i < |ev| ==>
      ev[i] == Gone
      || (ev[i].Wrote? && ev[i].slot in which && ev[i].slot in frames && ev[i].frame == frames[ev[i].slot])
  }

  /** No slot is written twice. */
  predicate Once(ev: seq<Event>) {
    forall i, j :: 0 <= i < j < |ev| && ev[i].Wrote? && ev[j].Wrote? ==> ev[i].slot != ev[j].slot
  }

  /** A board holds, in each slot that is named and was ever stored, the frame on record there. */
  predicate HeldAt(board: map<nat, Frame>, frames: map<nat, Frame>, slots: seq<nat>) {
    forall i :: 0 <= i < |slots| && slots[i] in frames ==>
      slots[i] in board && board[slots[i]] == frames[slots[i]]
  }

  /** Frames on record are written to slots in `which`. When no write fails the Show comes last, and names only slots
      that the board holds; when one fails, no Show comes. */
  predicate Shows(w: World, ev: seq<Event>, frames: map<nat, Frame>, which: set<nat>, show: Event)
    requires show.Showed?
  {
    if AllOk(ev) then
      && ev != [] && ev[|ev| - 1] == show && Stores(ev[..|ev| - 1], frames, which)
      && HeldAt(Then(w, ev).board, frames, show.slots)
    else Stores(ev, frames, which)
  }

  // ---- What the host remembers ----

  /** The frame of each slot, the slot and the pip count of each key, and whether a pip sheet was stored. */
  datatype Memory = Memory(frames: map<nat, Frame>, shown: map<nat, nat>, pips: map<nat, nat>, sheet: bool)

  const NOTHING := Memory(map[], map[], map[], false)

  datatype Action =
    | ConnectTo(contents: map<nat, Frame>)
    | Drop
    | Weather(link: Link, steady: bool)
    | Store(slot: nat, frame: Frame)
    | ShowNow(slots: seq<nat>, counts: Option<seq<nat>>)
    | Draw(key: nat)
    | Restore(connection: nat, slot: nat)
    | Miss(connection: nat, keys: set<nat>)
    | Sheet
    | Pips(connection: nat)

  /** What `encodeShowFrames` and `encodeShowFramesPips` let through. */
  predicate Encodable(slots: seq<nat>, counts: Option<seq<nat>>) {
    && slots != [] && (counts.Some? ==> |counts.value| == |slots|)
    && forall i :: 0 <= i < |slots| ==> slots[i] < SLOT_COUNT || slots[i] == SLOT_UNCHANGED
  }

  /** A Show as far as its first `n` keys: a key that names a stored slot shows it, with its count if it has one. */
  function Noted(m: Memory, slots: seq<nat>, counts: Option<seq<nat>>, n: nat): (r: Memory)
    requires n <= |slots| && (counts.Some? ==> |counts.value| == |slots|)
    ensures r.frames == m.frames && r.sheet == m.sheet
  {
    if n == 0 then m
    else
      var r, k := Noted(m, slots, counts, n - 1), n - 1;
      if slots[k] !in m.frames then r
      else
        r.(shown := r.shown[k := slots[k]],
           pips := if counts.Some? && counts.value[k] > 0 then r.pips[k := counts.value[k]] else r.pips - {k})
  }

  /** Key by key: a key that names a stored slot shows that slot, with its pip if it has one and else with none, and
      every other key stays as it was. */
  lemma {:induction false} NotedAt(m: Memory, slots: seq<nat>, counts: Option<seq<nat>>, n: nat, k: nat)
    requires n <= |slots| && (counts.Some? ==> |counts.value| == |slots|)
    ensures var r := Noted(m, slots, counts, n);
            if k < n && slots[k] in m.frames
            then
              && k in r.shown && r.shown[k] == slots[k]
              && (k in r.pips <==> counts.Some? && counts.value[k] > 0)
              && (k in r.pips ==> r.pips[k] == counts.value[k])
            else
              && (k in r.shown <==> k in m.shown) && (k in r.shown ==> r.shown[k] == m.shown[k])
              && (k in r.pips <==> k in m.pips) && (k in r.pips ==> r.pips[k] == m.pips[k])
  {
    if n > 0 {
      NotedAt(m, slots, counts, n - 1, k);
    }
  }

  function Remember(m: Memory, a: Action): Memory {
    match a
    case Store(slot, f) => if slot < SLOT_COUNT then m.(frames := m.frames[slot := f]) else m
    case ShowNow(slots, counts) => if Encodable(slots, counts) then Noted(m, slots, counts, |slots|) else m
    case Draw(key) => m.(shown := m.shown - {key}, pips := m.pips - {key})
    case Sheet => m.(sheet := true)
    case _ => m
  }

  function Remembered(script: seq<Action>): Memory {
    if script == [] then NOTHING else Remember(Remembered(script[..|script| - 1]), script[|script| - 1])
  }

  /** `pipShowLocked`: the first eight keys that have a pip, and no change for the others. */
  function PipSlots(m: Memory): (r: seq<nat>)
    ensures |r| == KEYS
  {
    seq<nat>(KEYS, k requires 0 <= k < KEYS => if k in m.pips && k in m.shown then m.shown[k] else SLOT_UNCHANGED)
  }

  function PipCounts(m: Memory): (r: seq<nat>)
    ensures |r| == KEYS
  {
    seq<nat>(KEYS, k requires 0 <= k < KEYS => if k in m.pips && k in m.shown then m.pips[k] else 0)
  }

  /** A key missed, and shows a slot. */
  predicate Missed(m: Memory, missed: set<nat>, k: nat) {
    k in missed && k in m.shown
  }

  function MissSlots(m: Memory, missed: set<nat>, n: nat): (r: seq<nat>)
    ensures |r| == KEYS
  {
    seq<nat>(KEYS, k requires 0 <= k < KEYS => if k < n && Missed(m, missed, k) then m.shown[k] else SLOT_UNCHANGED)
  }

  function MissCounts(m: Memory, missed: set<nat>, n: nat): (r: seq<nat>)
    ensures |r| == KEYS
  {
    seq<nat>(KEYS, k requires 0 <= k < KEYS =>
      if k < n && Missed(m, missed, k) && k in m.pips then m.pips[k] else 0)
  }

  /** The slots of the first `n` keys that missed. */
  function Again(m: Memory, missed: set<nat>, n: nat): seq<nat> {
    if n == 0 then []
    else Again(m, missed, n - 1) + if Missed(m, missed, n - 1) then [m.shown[n - 1]] else []
  }

  lemma {:induction false} AgainHas(m: Memory, missed: set<nat>, n: nat, s: nat)
    ensures s in Again(m, missed, n) <==> exists k :: 0 <= k < n && k in missed && k in m.shown && m.shown[k] == s
  {
    if n > 0 {
      AgainHas(m, missed, n - 1, s);
    }
  }

  /** After a Show, the pips' own Show repeats what it said of each key that has a pip, and leaves the others alone. The
      answer to a Show miss repeats all that it said of the keys that missed. */
  lemma ShownAgain(m: Memory, slots: seq<nat>, counts: Option<seq<nat>>, missed: set<nat>, k: nat)
    requires Encodable(slots, counts) && k < |slots| && k < 8 && slots[k] in m.frames
    ensures var r, count := Remember(m, ShowNow(slots, counts)), if counts.Some? then counts.value[k] else 0;
            && PipSlots(r)[k] == (if count > 0 then slots[k] else 255) && PipCounts(r)[k] == count
            && MissSlots(r, missed, KEYS)[k] == (if k in missed then slots[k] else 255)
            && MissCounts(r, missed, KEYS)[k] == (if k in missed then count else 0)
            && (k in missed ==> slots[k] in Again(r, missed, KEYS))
  {
    hide Noted, Again;
    var r := Remember(m, ShowNow(slots, counts));
    NotedAt(m, slots, counts, |slots|, k);
    AgainHas(r, missed, KEYS, slots[k]);
  }

  function Forgets(slots: seq<nat>): (r: seq<Event>)
    ensures |r| == |slots|
  {
    seq(|slots|, i requires 0 <= i < |slots| => Forgot(slots[i]))
  }

  // ---- What an action does ----

  /** The background work of connection `c`, the first being 0, is that of the board that is there. */
  predicate IsDevice(w: World, c: nat) {
    w.connected && c + 1 == w.joins
  }

  /** The work of a connection ends with it: it is never that of a later board. */
  lemma {:induction false} WorkEnds(w: World, c: nat, ev: seq<Event>)
    requires IsDevice(w, c) && Gone in ev
    ensures !IsDevice(Then(w, ev), c)
    decreases |ev|
  {
    var n := |ev| - 1;
    JoinsGrow(w, ev[..n]);
    assert ev == ev[..n] + [ev[n]];
    if Gone in ev[..n] {
      WorkEnds(w, c, ev[..n]);
    }
  }

  lemma {:induction false} JoinsGrow(w: World, ev: seq<Event>)
    ensures Then(w, ev).joins >= w.joins
  {
    if ev != [] {
      JoinsGrow(w, ev[..|ev| - 1]);
    }
  }

  /** The new record of a slot is held by nobody, and is sent once when a board is there. */
  predicate StoresNew(w: World, slot: nat, f: Frame, ev: seq<Event>) {
    && ev != [] && ev[0] == Forgot(slot) && Stores(ev[1..], map[slot := f], {slot}) && Once(ev[1..])
    && (HasWrite(ev[1..]) <==> w.connected)
  }

  /** One slot is stored again, when the board is not known to hold it. */
  predicate Restores(m: Memory, w: World, slot: nat, ev: seq<Event>) {
    if slot in m.frames && slot !in w.current then Stores(ev, m.frames, {slot}) && HasWrite(ev) && Once(ev)
    else ev == []
  }

  function MissShow(m: Memory, keys: set<nat>): Event {
    Showed(MissSlots(m, keys, KEYS), if m.sheet then Some(MissCounts(m, keys, KEYS)) else None)
  }

  /** The slots of the keys that missed count as held by nobody, are stored again, and are shown. */
  predicate Answers(m: Memory, w: World, keys: set<nat>, ev: seq<Event>) {
    var again := Again(m, keys, KEYS);
    if again == [] then ev == []
    else
      && |ev| >= |again| && ev[..|again|] == Forgets(again)
      && Shows(Then(w, Forgets(again)), ev[|again|..], m.frames, Members(again), MissShow(m, keys))
  }

  function PipsShow(m: Memory): seq<Event> {
    if m.sheet && m.pips != map[] then [Showed(PipSlots(m), Some(PipCounts(m)))] else []
  }

  /** The events of one action. Which writes go through, and when the board goes away, is open. */
  predicate Does(a: Action, m: Memory, w: World, ev: seq<Event>) {
    match a
    case ConnectTo(contents) => ev == if w.connected then [] else [Joined(contents)]
    case Drop => ev == if w.connected then [Gone] else []
    case Weather(_, _) => ev == []
    case Store(slot, f) => if slot < SLOT_COUNT then StoresNew(w, slot, f, ev) else ev == []
    case ShowNow(slots, counts) =>
      if !Encodable(slots, counts) || !w.connected then ev == []
      else Shows(w, ev, m.frames, Members(slots) - w.current, Showed(slots, counts)) && Once(ev)
    case Draw(_) => Stores(ev, map[], {})
    case Sheet => Stores(ev, map[], {})
    case Restore(c, slot) => if IsDevice(w, c) then Restores(m, w, slot, ev) else ev == []
    case Miss(c, keys) => if IsDevice(w, c) then Answers(m, w, keys, ev) else ev == []
    case Pips(c) => ev == if IsDevice(w, c) then PipsShow(m) else []
  }

  /** Every slot named that was ever stored is known to be held. */
  predicate AllCurrent(w: World, frames: map<nat, Frame>, slots: seq<nat>) {
    forall i :: 0 <= i < |slots| && slots[i] in frames ==> slots[i] in w.current
  }

  /** Each Show among the events names only slots that the board holds at that moment with the frame on record. The
      pips' own Show does so when its slots are known to be held. */
  predicate Safe(a: Action, m: Memory, w: World, ev: seq<Event>) {
    forall n :: 0 <= n < |ev| && ev[n].Showed? ==>
      && (a.ShowNow? || a.Miss? || a.Pips?)
      && (HeldAt(Then(w, ev[..n]).board, m.frames, ev[n].slots)
          || (a.Pips? && !AllCurrent(w, m.frames, ev[n].slots)))
  }

  /** The slots known to be held do hold the frames on record. */
  predicate Coherent(w: World, frames: map<nat, Frame>) {
    forall s :: s in w.current && s in frames ==> s in w.board && w.board[s] == frames[s]
  }

  lemma DoesIsSafe(a: Action, m: Memory, w: World, ev: seq<Event>)
    requires Does(a, m, w, ev) && Coherent(w, m.frames)
    ensures Safe(a, m, w, ev)
  {
    hide Encodable, PipSlots, PipCounts, MissSlots, MissCounts, Again, Coherent, Then, HeldAt, Shows;
    ThenOne(w, [], Gone);
    match a
    case ShowNow(slots, counts) =>
      if ev != [] {
        assert [] + ev == ev;
        ShowIsSafe(w, [], ev, m.frames, Members(slots) - w.current, Showed(slots, counts));
      }
    case Miss(c, keys) =>
      if IsDevice(w, c) {
        AnswersAreSafe(m, w, keys, ev);
      }
    case Pips(_) =>
      if AllCurrent(w, m.frames, PipSlots(m)) {
        CurrentIsHeld(w, m.frames, PipSlots(m));
      }
      assert ev != [] ==> ev[..0] == [];
    case _ =>
  }

  lemma AnswersAreSafe(m: Memory, w: World, keys: set<nat>, ev: seq<Event>)
    requires Answers(m, w, keys, ev)
    ensures forall n :: 0 <= n < |ev| && ev[n].Showed? ==> HeldAt(Then(w, ev[..n]).board, m.frames, ev[n].slots)
  {
    hide MissSlots, MissCounts, Again, Then, HeldAt, Shows;
    var again := Again(m, keys, KEYS);
    if again != [] {
      assert ev == Forgets(again) + ev[|again|..];
      ShowIsSafe(w, Forgets(again), ev[|again|..], m.frames, Members(again), MissShow(m, keys));
    }
  }

  /** A Show after some other events, as `Shows` has it. */
  lemma ShowIsSafe(w: World, before: seq<Event>, ev: seq<Event>, frames: map<nat, Frame>, which: set<nat>, show: Event)
    requires forall i :: 0 <= i < |before| ==> !before[i].Showed?
    requires show.Showed? && Shows(Then(w, before), ev, frames, which, show)
    ensures forall n :: 0 <= n < |before + ev| && (before + ev)[n].Showed? ==>
              HeldAt(Then(w, (before + ev)[..n]).board, frames, (before + ev)[n].slots)
  {
    hide HeldAt;
    if AllOk(ev) {
      var all, stored := before + ev, ev[..|ev| - 1];
      assert ev == stored + [show] && all[..|all| - 1] == before + stored;
      ThenJoin(w, before, stored);
      ThenOne(Then(w, before), stored, show);
      forall n | 0 <= n < |all| - 1
        ensures !all[n].Showed?
      {
        assert all[n] == (before + stored)[n];
      }
    }
  }

  /** A write, around which the board may go away. */
  lemma OneWrite(before: seq<Event>, e: Event, after: seq<Event>, frames: map<nat, Frame>)
    requires before in {[], [Gone]} && after in {[], [Gone]} && e.Wrote? && e.slot in frames
             && e.frame == frames[e.slot]
    ensures var ev := before + [e] + after;
            && Stores(ev, frames, {e.slot}) && Once(ev) && HasWrite(ev) && (AllOk(ev) <==> e.ok)
            && (Gone in ev <==> Gone in before || Gone in after)
  {
    var ev := before + [e] + after;
    assert ev[|before|] == e;
    assert forall i :: 0 <= i < |ev| && i != |before| ==> ev[i] == Gone;
  }

  lemma CoherentWrite(w: World, e: Event, frames: map<nat, Frame>)
    requires Coherent(w, frames) && e.Wrote? && e.slot in frames && e.frame == frames[e.slot] && (e.ok ==> e.applied)
    ensures Coherent(Next(w, e), frames) && Coherent(Next(w, e).(connected := false), frames)
  {
  }

  predicate Distinct(s: seq<nat>) {
    forall i, j :: 0 <= i < j < |s| ==> s[i] != s[j]
  }

  lemma NoEvents(w: World, frames: map<nat, Frame>)
    ensures Then(w, []) == w && Stores([], frames, Members([])) && AllOk([]) && Once([])
  {
  }

  /** One more slot is stored after those of `again[..j]`. */
  lemma OneMore(ev: seq<Event>, one: seq<Event>, frames: map<nat, Frame>, again: seq<nat>, j: nat)
    requires j < |again| && Stores(ev, frames, Members(again[..j])) && AllOk(ev) && (Distinct(again[..j]) ==> Once(ev))
    requires Stores(one, frames, {again[j]}) && Once(one)
    ensures Stores(ev + one, frames, Members(again[..j + 1])) && (AllOk(ev + one) <==> AllOk(one))
    ensures Distinct(again[..j + 1]) ==> Once(ev + one)
    ensures Members(again[..j + 1]) == Members(again[..j]) + {again[j]}
  {
    assert again[..j + 1] == again[..j] + [again[j]];
    assert forall i :: 0 <= i < |one| ==> (ev + one)[|ev| + i] == one[i];
    if Distinct(again[..j + 1]) {
      assert Distinct(again[..j]);
      assert again[j] !in again[..j];
    }
  }

  lemma OnlyMore(ev: seq<Event>, frames: map<nat, Frame>, again: seq<nat>, j: nat)
    requires j < |again| && Stores(ev, frames, Members(again[..j + 1])) && (Distinct(again[..j + 1]) ==> Once(ev))
    ensures Stores(ev, frames, Members(again)) && (Distinct(again) ==> Once(ev))
  {
    assert Distinct(again) ==> Distinct(again[..j + 1]);
  }

  /** The board may go away, and then frames are stored. */
  lemma GoneFirst(before: seq<Event>, stored: seq<Event>, frames: map<nat, Frame>, again: seq<nat>)
    requires before in {[], [Gone]} && Stores(stored, frames, Members(again))
    ensures Stores(before + stored, frames, Members(again)) && (Once(stored) ==> Once(before + stored))
    ensures (AllOk(before + stored) <==> AllOk(stored))
            && (Gone in before + stored <==> Gone in before || Gone in stored)
  {
    assert forall i :: 0 <= i < |stored| ==> (before + stored)[|before| + i] == stored[i];
  }

  lemma NoShow(w: World, stored: seq<Event>, frames: map<nat, Frame>, which: set<nat>, show: Event)
    requires Stores(stored, frames, which) && !AllOk(stored) && show.Showed?
    ensures Shows(w, stored, frames, which, show)
  {
  }

  lemma MoreSlots(w: World, ev: seq<Event>, frames: map<nat, Frame>, which: set<nat>, more: set<nat>, show: Event)
    requires show.Showed? && Shows(w, ev, frames, which, show) && which <= more
    ensures Shows(w, ev, frames, more, show)
  {
    hide HeldAt, Then;
  }

  /** When no write fails, the Show comes last. */
  lemma ShowLast(w: World, stored: seq<Event>, frames: map<nat, Frame>, which: set<nat>, show: Event)
    requires Stores(stored, frames, which) && AllOk(stored) && show.Showed?
    requires HeldAt(Then(w, stored).board, frames, show.slots)
    ensures var ev := stored + [show];
            && Shows(w, ev, frames, which, show) && AllOk(ev) && Then(w, ev) == Then(w, stored)
            && (Once(stored) ==> Once(ev))
            && (Gone in ev <==> Gone in stored)
  {
    hide HeldAt;
    var ev := stored + [show];
    ThenOne(w, stored, show);
    assert ev[..|ev| - 1] == stored;
  }

  lemma AnswersNone(m: Memory, w: World, keys: set<nat>)
    requires Again(m, keys, KEYS) == []
    ensures Answers(m, w, keys, []) && AllOk([]) && Then(w, Forgets([])) == w
  {
  }

  lemma AnswersBy(m: Memory, w: World, keys: set<nat>, rest: seq<Event>)
    requires var again := Again(m, keys, KEYS);
             again != [] && Shows(Then(w, Forgets(again)), rest, m.frames, Members(again), MissShow(m, keys))
    ensures var ev := Forgets(Again(m, keys, KEYS)) + rest;
            Answers(m, w, keys, ev) && (AllOk(ev) <==> AllOk(rest)) && (Gone in ev <==> Gone in rest)
  {
    hide Shows, Then, MissShow, Again;
    var again := Again(m, keys, KEYS);
    var ev := Forgets(again) + rest;
    assert ev[..|again|] == Forgets(again) && ev[|again|..] == rest;
    assert forall i :: 0 <= i < |rest| ==> ev[|again| + i] == rest[i];
    assert forall i :: 0 <= i < |again| ==> ev[i] == Forgot(again[i]);
  }

  /** What one more key adds to the answer to a miss. */
  lemma MissStep(m: Memory, missed: set<nat>, k: nat)
    requires k < KEYS
    ensures var hit := Missed(m, missed, k);
            && MissSlots(m, missed, k + 1)
                 == (if hit then MissSlots(m, missed, k)[k := m.shown[k]] else MissSlots(m, missed, k))
            && MissCounts(m, missed, k + 1)
                 == (if hit && k in m.pips then MissCounts(m, missed, k)[k := m.pips[k]] else MissCounts(m, missed, k))
            && Again(m, missed, k + 1) == Again(m, missed, k) + (if hit then [m.shown[k]] else [])
            && MissCounts(m, missed, k)[k] == 0
  {
  }

  lemma MissStart(m: Memory, missed: set<nat>)
    ensures MissSlots(m, missed, 0) == seq(KEYS, _ => SLOT_UNCHANGED) && MissCounts(m, missed, 0) == seq(KEYS, _ => 0)
    ensures Again(m, missed, 0) == [] && Forgets([]) == []
  {
  }

  lemma ForgetsNext(again: seq<nat>, slot: nat)
    ensures Forgets(again + [slot]) == Forgets(again) + [Forgot(slot)]
  {
  }

  lemma ForgetsOnly(w: World, slot: nat, f: Frame)
    ensures var ev := [Forgot(slot)]; !w.connected ==> StoresNew(w, slot, f, ev) && AllOk(ev) && Gone !in ev
  {
  }

  lemma ForgetsFirst(w: World, slot: nat, f: Frame, frames: map<nat, Frame>, ev: seq<Event>)
    requires slot in frames && frames[slot] == f && Stores(ev, frames, {slot}) && HasWrite(ev) && Once(ev)
             && w.connected
    ensures var all := [Forgot(slot)] + ev;
            StoresNew(w, slot, f, all) && (AllOk(all) <==> AllOk(ev)) && (Gone in all <==> Gone in ev)
  {
    var all := [Forgot(slot)] + ev;
    assert all[1..] == ev && forall i :: 0 <= i < |ev| ==> all[i + 1] == ev[i];
  }

  lemma CurrentIsHeld(w: World, frames: map<nat, Frame>, slots: seq<nat>)
    requires Coherent(w, frames) && AllCurrent(w, frames, slots)
    ensures HeldAt(w.board, frames, slots)
  {
  }

  // ---- The host ----

  class Reconnecting {
    var dev: Board?
    var frames: map<nat, FrameRec>
    var shown: map<nat, nat>
    var pips: map<nat, nat>
    var hasSheet: bool
    var gen: nat
    // No disconnect comes while a method is at work.
    var steady: bool
    // What the events so far come to.
    ghost var world: World

    ghost function OnRecord(): map<nat, Frame>
      reads this`frames
    {
      map s | s in frames :: frames[s].frame
    }

    ghost function Mem(): Memory
      reads this`frames, this`shown, this`pips, this`hasSheet
    {
      Memory(OnRecord(), shown, pips, hasSheet)
    }

    /** One record to a slot, and a key shows only a slot that was stored. */
    ghost predicate Recorded()
      reads this`frames, this`gen, this`shown, frames.Values
    {
      && (forall s, t :: s in frames && t in frames && s != t ==> frames[s] != frames[t])
      && (forall s :: s in frames ==> s < SLOT_COUNT && frames[s].gen <= gen)
      && (forall k :: k in shown ==> shown[k] in frames)
    }

    /** The records of the current generation are those of the slots that the board is known to hold. */
    ghost predicate Logged()
      reads this`frames, this`gen, this`dev, this`world, frames.Values
    {
      && world.connected == (dev != null) && (dev != null ==> gen > 0) && world.joins == gen
         && Coherent(world, OnRecord())
      && (gen > 0 ==> Counted())
    }

    ghost predicate Counted()
      reads this`frames, this`gen, this`world, frames.Values
    {
      forall s :: s in frames ==> (frames[s].gen == gen <==> s in world.current)
    }

    ghost predicate Valid()
      reads this, frames.Values, dev
    {
      Recorded() && Logged() && (dev != null ==> world.board == dev.slots)
    }

    /** The same, of a board that may have gone away since. */
    ghost predicate Ready(board: Board)
      reads this, frames.Values, board
    {
      Recorded() && Logged() && gen > 0 && (dev == null || dev == board) && world.board == board.slots
    }

    constructor ()
      ensures Valid() && dev == null && frames == map[] && gen == 0 && !steady && Mem() == NOTHING && world == START
    {
      dev, gen, hasSheet, steady := null, 0, false, false;
      frames, shown, pips, world := map[], map[], map[], START;
    }

    /** These events came, and a device that is not steady may have gone away. */
    twostate predicate Came(ev: seq<Event>)
      reads this
    {
      && world == Then(old(world), ev) && (dev == old(dev) || dev == null) && (steady ==> Gone !in ev)
      && (Gone !in ev ==> dev == old(dev))
    }

    /** What a disconnect may do while this side is not in mu. */
    method Interfere() returns (ev: seq<Event>)
      modifies this`dev, this`world
      ensures Came(ev) && (ev == [] || (ev == [Gone] && dev == null && old(dev) != null))
      ensures world == if ev == [] then old(world) else old(world).(connected := false)
    {
      ThenOne(world, [], Gone);
      ev := [];
      var gone := *;
      if gone && !steady && dev != null {
        dev, world, ev := null, Next(world, Gone), [Gone];
      }
    }

    /** The link to the board gets better or worse. */
    method Weather(link: Link, calm: bool)
      requires Valid()
      modifies this`steady, (if dev == null then {} else {dev})`link
      ensures Valid() && steady == calm && (dev != null ==> dev.link == link)
    {
      steady := calm;
      if dev != null {
        dev.link := link;
      }
    }

    /** The board went away. */
    method Disconnect() returns (ev: seq<Event>)
      requires Valid()
      modifies this`dev, this`world
      ensures Valid() && dev == null && world == Then(old(world), ev) && Does(Drop, old(Mem()), old(world), ev)
      ensures AllOk(ev)
    {
      ThenOne(world, [], Gone);
      ev := if dev == null then [] else [Gone];
      dev, world := null, Then(world, ev);
    }

    /** `connect`: a board with anything in its slots becomes the device, and no record counts as held. */
    method Connect(board: Board) returns (ev: seq<Event>)
      requires Valid() && dev == null
      modifies this`dev, this`gen, this`world
      ensures Valid() && dev == board && gen == old(gen) + 1
      ensures world == Then(old(world), ev) && ev == [Joined(board.slots)]
      ensures forall s :: s in frames ==> frames[s].gen != gen
    {
      ThenOne(world, [], Joined(board.slots));
      gen := gen + 1;
      dev, ev := board, [Joined(board.slots)];
      world := Then(world, ev);
    }

    /** One Store frame, with mu free before and after it. */
    method SendFrame(board: Board, slot: nat, f: Frame, ghost frames: map<nat, Frame>)
        returns (ok: bool, ev: seq<Event>)
      requires slot in frames && frames[slot] == f && Coherent(world, frames)
      requires world.connected == (dev != null) && (dev == null || dev == board) && world.board == board.slots
      modifies this`dev, this`world, board`slots
      ensures Came(ev) && Stores(ev, frames, {slot}) && Once(ev) && HasWrite(ev) && (ok <==> AllOk(ev))
      ensures Coherent(world, frames) && world.connected == (dev != null) && world.joins == old(world.joins)
      ensures world.board == board.slots && world.current == old(world.current) + if ok then {slot} else {}
      ensures (board.link == Up ==> ok) && (board.link == Broken ==> !ok && board.slots == old(board.slots))
      ensures ok ==> board.slots == old(board.slots)[slot := f]
    {
      hide Then, Stores, Once, HasWrite, AllOk;
      var before := Interfere();
      var applied;
      ok, applied := board.Store(slot, f);
      var e := Wrote(slot, f, applied, ok);
      ThenOne(old(world), before, e);
      CoherentWrite(world, e, frames);
      world := Next(world, e);
      var after := Interfere();
      ThenJoin(old(world), before + [e], after);
      ev := before + [e] + after;
      OneWrite(before, e, after, frames);
    }

    /** `storeLocked`: sends the frame in `slot`, and notes that the board holds it. */
    method StoreLocked(board: Board, g: nat, slot: nat) returns (ok: bool, ev: seq<Event>)
      requires Ready(board) && gen == g
      modifies this`dev, this`world, board`slots, if slot in frames then {frames[slot]} else {}
      ensures Ready(board) && Came(ev) && Stores(ev, OnRecord(), {slot}) && Once(ev) && (ok <==> AllOk(ev))
      ensures if slot in frames then HasWrite(ev) else ev == []
      ensures world.current == old(world.current) + if ok && slot in frames then {slot} else {}
      ensures board.link == Up ==> ok
      ensures slot in frames && board.link == Broken ==> !ok && board.slots == old(board.slots)
      ensures slot in frames && ok ==> board.slots == old(board.slots)[slot := frames[slot].frame]
    {
      if slot !in frames {
        return true, [];
      }
      var rec := frames[slot];
      assert slot in OnRecord() && OnRecord()[slot] == rec.frame;
      hide Then, Stores, Once, HasWrite, AllOk, Coherent, OnRecord, Recorded;
      ok, ev := SendFrame(board, slot, rec.frame, OnRecord());
      NoteHeld(slot, rec, ok);
    }

    /** The end of `storeLocked`: the record of a frame that went through is of this connection. */
    method NoteHeld(slot: nat, rec: FrameRec, ok: bool)
      requires Recorded() && slot in frames && frames[slot] == rec && gen > 0 && (ok ==> slot in world.current)
      requires forall s :: s in frames && (s != slot || !ok) ==> (frames[s].gen == gen <==> s in world.current)
      modifies rec
      ensures Recorded() && Counted()
    {
      if ok && frames[slot] == rec {
        rec.gen := gen;
      }
    }

    /** `StoreFrame`: remembers the frame, and sends it when a device is connected. */
    method StoreFrame(slot: nat, f: Frame) returns (ok: bool, ev: seq<Event>)
      requires Valid()
      modifies this`dev, this`frames, this`world, (if dev == null then {} else {dev})`slots
      ensures Valid() && Came(ev) && Mem() == Remember(old(Mem()), Store(slot, f))
      ensures Does(Store(slot, f), old(Mem()), old(world), ev) && (ok <==> slot < SLOT_COUNT && AllOk(ev))
      ensures slot >= SLOT_COUNT ==> frames == old(frames)
      ensures slot < SLOT_COUNT ==>
                frames.Keys == old(frames).Keys + {slot} && fresh(frames[slot])
                && forall s :: s in frames && s != slot ==> frames[s] == old(frames)[s]
      ensures old(dev) != null && old(dev.link) == Up ==> AllOk(ev)
      ensures slot < SLOT_COUNT && old(dev) != null && old(dev.link) == Broken ==>
                !ok && old(dev).slots == old(dev.slots)
    {
      if slot >= SLOT_COUNT {
        return false, [];
      }
      hide Then, Stores, Once, HasWrite, AllOk, Coherent, Recorded, OnRecord, Encodable, Noted, Shows, Answers,
           StoresNew, Restores, PipsShow, IsDevice, Next;
      Remembers(slot, f);
      var board := dev;
      if board == null {
        ForgetsOnly(old(world), slot, f);
        return true, [Forgot(slot)];
      }
      ok, ev := SendNew(board, slot, old(world));
    }

    /** The new record is sent. */
    method SendNew(board: Board, slot: nat, ghost w: World) returns (ok: bool, ev: seq<Event>)
      requires Valid() && dev == board && slot in frames && world == Then(w, [Forgot(slot)]) && w.connected
      modifies this`dev, this`world, board`slots, frames[slot]
      ensures Valid() && world == Then(w, ev) && (dev == board || dev == null) && (Gone !in ev ==> dev == board)
      ensures StoresNew(w, slot, frames[slot].frame, ev) && (ok <==> AllOk(ev)) && (steady ==> Gone !in ev)
      ensures (board.link == Up ==> ok) && (board.link == Broken ==> !ok && board.slots == old(board.slots))
    {
      assert slot in OnRecord() && OnRecord()[slot] == frames[slot].frame;
      hide Then, Stores, Once, HasWrite, AllOk, Coherent, Recorded, OnRecord, StoresNew;
      ok, ev := StoreLocked(board, gen, slot);
      ThenJoin(w, [Forgot(slot)], ev);
      ForgetsFirst(w, slot, frames[slot].frame, OnRecord(), ev);
      ev := [Forgot(slot)] + ev;
    }

    /** A new record takes the place of the slot's old one, and no board is known to hold it. */
    method Remembers(slot: nat, f: Frame)
      requires Valid() && slot < SLOT_COUNT
      modifies this`frames, this`world
      ensures Valid() && world == Then(old(world), [Forgot(slot)]) && OnRecord() == old(OnRecord())[slot := f]
      ensures frames.Keys == old(frames).Keys + {slot} && fresh(frames[slot]) && frames[slot].frame == f
      ensures forall s :: s in frames && s != slot ==> frames[s] == old(frames)[s]
    {
      var rec := new FrameRec(f);
      frames := frames[slot := rec];
      ThenOne(world, [], Forgot(slot));
      world := Next(world, Forgot(slot));
    }

    /** The slots of a Show whose record another connection was sent last, each once. */
    method Missing(slots: seq<nat>) returns (missing: seq<nat>)
      ensures forall i :: 0 <= i < |missing| ==>
                missing[i] in frames && missing[i] in slots && frames[missing[i]].gen != gen
      ensures forall i, j :: 0 <= i < j < |missing| ==> missing[i] != missing[j]
      ensures forall i :: 0 <= i < |slots| && slots[i] in frames ==> slots[i] in missing || frames[slots[i]].gen == gen
                                                                     || slots[i] == SLOT_UNCHANGED
    {
      missing := [];
      var seen: set<nat> := {};
      for i := 0 to |slots|
        invariant forall j :: 0 <= j < |missing| ==>
                    missing[j] in frames && missing[j] in slots && frames[missing[j]].gen != gen
        invariant forall j :: 0 <= j < |missing| ==> missing[j] in seen
        invariant forall j, k :: 0 <= j < k < |missing| ==> missing[j] != missing[k]
        invariant forall s :: s in seen && s in frames ==> s in missing || frames[s].gen == gen
        invariant forall j :: 0 <= j < i ==> slots[j] in seen || slots[j] == SLOT_UNCHANGED
      {
        if slots[i] == SLOT_UNCHANGED || slots[i] in seen {
          continue;
        }
        seen := seen + {slots[i]};
        if slots[i] in frames && frames[slots[i]].gen != gen {
          missing := missing + [slots[i]];
        }
      }
    }

    /** Stores the frames in `again`, one after the other, until one fails. */
    method StoreAll(board: Board, g: nat, again: seq<nat>) returns (ok: bool, ev: seq<Event>)
      requires Ready(board) && gen == g && forall i :: 0 <= i < |again| ==> again[i] in frames
      modifies this`dev, this`world, board`slots, frames.Values
      ensures Ready(board) && Came(ev) && Stores(ev, OnRecord(), Members(again)) && (ok <==> AllOk(ev))
      ensures Distinct(again) ==> Once(ev)
      ensures old(world.current) <= world.current && (ok ==> Members(again) <= world.current)
      ensures board.link == Up ==> ok
    {
      hide Then, Stores, Once, AllOk, Coherent;
      ev := [];
      NoEvents(world, OnRecord());
      for j := 0 to |again|
        invariant Ready(board) && Came(ev) && Stores(ev, OnRecord(), Members(again[..j])) && AllOk(ev)
        invariant Distinct(again[..j]) ==> Once(ev)
        invariant old(world.current) <= world.current && Members(again[..j]) <= world.current
      {
        var one;
        ok, one := StoreLocked(board, g, again[j]);
        ThenJoin(old(world), ev, one);
        OneMore(ev, one, OnRecord(), again, j);
        ev := ev + one;
        if !ok {
          OnlyMore(ev, OnRecord(), again, j);
          return;
        }
      }
      assert again[..|again|] == again;
      return true, ev;
    }

    /** After the missing slots were stored, every slot of the Show is known to be held. */
    lemma KnownAll(slots: seq<nat>, missing: seq<nat>)
      requires Members(missing) <= world.current
      requires forall i :: 0 <= i < |slots| && slots[i] in frames ==> slots[i] in missing || slots[i] in world.current
      ensures AllCurrent(world, OnRecord(), slots)
    {
    }

    /** Every key that names a stored slot shows it from now on, with its count when it has one. */
    method NoteShown(slots: seq<nat>, counts: Option<seq<nat>>)
      requires Valid() && Encodable(slots, counts)
      modifies this`shown, this`pips
      ensures Valid() && Mem() == Remember(old(Mem()), ShowNow(slots, counts))
    {
      hide Coherent;
      for key := 0 to |slots|
        modifies this`shown, this`pips
        invariant forall k :: k in shown ==> shown[k] in frames
        invariant Mem() == Noted(old(Mem()), slots, counts, key)
      {
        if slots[key] == SLOT_UNCHANGED || slots[key] !in frames {
          continue;
        }
        shown := shown[key := slots[key]];
        pips := if counts.Some? && counts.value[key] > 0 then pips[key := counts.value[key]] else pips - {key};
      }
    }

    /** `show`: notes what the keys show, stores what the board lacks, and only then sends the Show. */
    method Show(slots: seq<nat>, counts: Option<seq<nat>>) returns (ok: bool, ev: seq<Event>)
      requires Valid()
      modifies this`dev, this`shown, this`pips, this`world, frames.Values, (if dev == null then {} else {dev})`slots
      ensures Valid() && Came(ev) && Mem() == Remember(old(Mem()), ShowNow(slots, counts))
      ensures Does(ShowNow(slots, counts), old(Mem()), old(world), ev) && (ok ==> Encodable(slots, counts) && AllOk(ev))
      ensures !Encodable(slots, counts) || old(dev) == null ==> ok == Encodable(slots, counts)
      ensures old(dev) != null && old(dev.link) == Up ==> AllOk(ev)
    {
      if !Encodable(slots, counts) {
        return false, [];
      }
      NoteShown(slots, counts);
      var board := dev;
      if board == null {
        return true, [];
      }
      ok, ev := SendShow(board, slots, counts);
    }

    /** The rest of `show`, with a device. */
    method SendShow(board: Board, slots: seq<nat>, counts: Option<seq<nat>>) returns (ok: bool, ev: seq<Event>)
      requires Valid() && dev == board
      modifies this`dev, this`world, frames.Values, board`slots
      ensures Valid() && Came(ev) && Once(ev) && (ok ==> AllOk(ev)) && (board.link == Up ==> AllOk(ev))
      ensures Shows(old(world), ev, OnRecord(), Members(slots) - old(world.current), Showed(slots, counts))
    {
      Unchanging();
      hide Then, Stores, Once, AllOk, Recorded, OnRecord, Shows, HeldAt, AllCurrent;
      var missing := Missing(slots);
      assert Members(missing) <= Members(slots) - world.current;
      ok, ev := StoreAndShow(board, missing, slots, counts);
      MoreSlots(old(world), ev, OnRecord(), Members(missing), Members(slots) - old(world.current),
          Showed(slots, counts));
    }

    /** Stores the frames in `again`, and then shows. */
    method StoreAndShow(board: Board, again: seq<nat>, slots: seq<nat>, counts: Option<seq<nat>>)
        returns (ok: bool, ev: seq<Event>)
      requires Valid() && dev == board && forall i :: 0 <= i < |again| ==> again[i] in frames
      requires forall i :: 0 <= i < |slots| && slots[i] in frames ==> slots[i] in again || slots[i] in world.current
      modifies this`dev, this`world, frames.Values, board`slots
      ensures Valid() && Came(ev) && (Distinct(again) ==> Once(ev)) && (ok ==> AllOk(ev))
      ensures Shows(old(world), ev, OnRecord(), Members(again), Showed(slots, counts))
      ensures board.link == Up ==> AllOk(ev)
    {
      hide Then, Stores, Once, AllOk, Recorded, OnRecord, Shows, HeldAt, AllCurrent;
      var before := Interfere();
      var stored;
      ok, stored := StoreAll(board, gen, again);
      ThenJoin(old(world), before, stored);
      GoneFirst(before, stored, OnRecord(), again);
      ev := before + stored;
      if !ok {
        NoShow(old(world), ev, OnRecord(), Members(again), Showed(slots, counts));
        return;
      }
      KnownAll(slots, again);
      CurrentIsHeld(world, OnRecord(), slots);
      ShowLast(old(world), ev, OnRecord(), Members(again), Showed(slots, counts));
      ok, ev := *, ev + [Showed(slots, counts)];
    }

    /** One step of `restoreFrames`, begun for connection `g` of `board`; a stale one does nothing. */
    method RestoreOne(board: Board, g: nat, slot: nat) returns (more: bool, ev: seq<Event>)
      requires Valid()
      modifies this`dev, this`world, board`slots, frames.Values
      ensures Valid() && Came(ev) && (more ==> dev == board || Gone in ev)
      ensures if old(dev == board && gen == g) then Restores(Mem(), old(world), slot, ev) && (more <==> AllOk(ev))
              else ev == [] && !more && board.slots == old(board.slots)
      ensures old(dev) == board && board.link == Up ==> AllOk(ev)
      ensures old(dev == board && gen == g) && board.link == Up ==> more
      ensures more && slot in frames && slot !in old(world.current) ==>
                slot in world.current && board.slots == old(board.slots)[slot := frames[slot].frame]
    {
      NoEvents(world, OnRecord());
      if dev != board || gen != g {
        return false, [];
      }
      hide Then, Stores, Once, HasWrite, AllOk, Coherent, Recorded, OnRecord;
      if slot in frames && frames[slot].gen != g {
        assert slot in OnRecord() by { InRecord(); }
        more, ev := StoreLocked(board, g, slot);
        return;
      }
      InRecord();
      return true, [];
    }

    lemma InRecord()
      ensures OnRecord().Keys == frames.Keys && forall s :: s in frames ==> OnRecord()[s] == frames[s].frame
    {
    }

    /** `handleShowMiss`: stores the frames of the keys that missed again, whatever the record said, and shows them. */
    method HandleShowMiss(board: Board, missed: set<nat>) returns (ev: seq<Event>)
      requires Valid()
      modifies this`dev, this`world, board`slots, frames.Values
      ensures Valid() && Came(ev)
      ensures if old(dev) == board then Answers(Mem(), old(world), missed, ev)
              else ev == [] && board.slots == old(board.slots)
      ensures old(dev) == board && board.link == Up ==> AllOk(ev)
    {
      hide Then, Stores, Once, AllOk, Coherent, Recorded, Counted, OnRecord, Shows, HeldAt, AllCurrent, MissSlots,
        MissCounts, Again, Forgets, Answers;
      NoEvents(world, OnRecord());
      if dev != board {
        return [];
      }
      var slots, counts, again := CollectMissed(missed);
      if again == [] {
        AnswersNone(Mem(), old(world), missed);
        return [];
      }
      var _, rest := StoreAndShow(board, again, slots, if hasSheet then Some(counts) else None);
      ThenJoin(old(world), Forgets(again), rest);
      AnswersBy(Mem(), old(world), missed, rest);
      ev := Forgets(again) + rest;
    }

    /** The slots of the keys that missed, whose records then count as held by nobody. */
    method CollectMissed(missed: set<nat>) returns (slots: seq<nat>, counts: seq<nat>, again: seq<nat>)
      requires Valid() && dev != null
      modifies this`world, frames.Values
      ensures Valid() && world == Then(old(world), Forgets(again))
      ensures slots == MissSlots(Mem(), missed, KEYS) && counts == MissCounts(Mem(), missed, KEYS)
      ensures again == Again(Mem(), missed, KEYS) && forall i :: 0 <= i < |again| ==> again[i] in frames
      ensures forall i :: 0 <= i < |slots| && slots[i] in frames ==> slots[i] in again
    {
      hide Then, OnRecord, MissSlots, MissCounts, Again, Forgets, Valid;
      slots, counts, again := seq(KEYS, _ => SLOT_UNCHANGED), seq(KEYS, _ => 0), [];
      ghost var m := Mem();
      NoEvents(world, OnRecord());
      MissStart(m, missed);
      for key := 0 to KEYS
        invariant Valid() && Mem() == m && world == Then(old(world), Forgets(again))
        invariant slots == MissSlots(m, missed, key) && counts == MissCounts(m, missed, key)
        invariant again == Again(m, missed, key)
      {
        MissStep(m, missed, key);
        if key in missed && key in shown {
          slots := slots[key := shown[key]];
          counts := counts[key := if key in pips then pips[key] else 0];
          Forget(key);
          ThenOne(old(world), Forgets(again), Forgot(shown[key]));
          ForgetsNext(again, shown[key]);
          again := again + [shown[key]];
        }
      }
      AgainIsStored(missed, KEYS);
    }

    lemma {:induction false} AgainIsStored(missed: set<nat>, n: nat)
      requires Valid() && n <= KEYS
      ensures forall i :: 0 <= i < |Again(Mem(), missed, n)| ==> Again(Mem(), missed, n)[i] in frames
      ensures forall i :: 0 <= i < KEYS && MissSlots(Mem(), missed, n)[i] in frames ==>
                MissSlots(Mem(), missed, n)[i] in Again(Mem(), missed, n)
    {
      Unchanging();
      if n > 0 {
        AgainIsStored(missed, n - 1);
        MissStep(Mem(), missed, n - 1);
      }
    }

    lemma Unchanging()
      requires Recorded()
      ensures SLOT_UNCHANGED !in frames
    {
    }

    /** The record of what a key shows counts as held by nobody. */
    method Forget(k: nat)
      requires Valid() && dev != null && k in shown
      modifies this`world, frames.Values
      ensures Valid() && world == Next(old(world), Forgot(shown[k])) && shown[k] in frames
    {
      frames[shown[k]].gen := 0;
      world := Next(world, Forgot(shown[k]));
    }

    /** `StorePipSheet`: the board can draw pips from now on. */
    method StorePipSheet() returns (ev: seq<Event>)
      requires Valid()
      modifies this`hasSheet, this`dev, this`world
      ensures Valid() && Came(ev) && Mem() == Remember(old(Mem()), Sheet) && Stores(ev, map[], {}) && AllOk(ev)
    {
      hasSheet := true;
      ev := Interfere();
    }

    /** SendKeyState and SendCustomGlyph, as far as they go here: the key no longer shows a slot. */
    method KeyDrawn(k: nat) returns (ev: seq<Event>)
      requires Valid()
      modifies this`shown, this`pips, this`dev, this`world
      ensures Valid() && Came(ev) && Mem() == Remember(old(Mem()), Draw(k)) && Stores(ev, map[], {}) && AllOk(ev)
    {
      shown, pips := shown - {k}, pips - {k};
      ev := Interfere();
    }

    /** Every slot of the pips' Show has a record of the current generation. */
    ghost predicate PipsCurrent()
      reads this, frames.Values
    {
      var named := PipSlots(Mem());
      forall i :: 0 <= i < KEYS && named[i] in frames ==> frames[named[i]].gen == gen
    }

    /** Slots that hold every record of the current generation: all that is known of the connected board. */
    ghost predicate Possible(slots: map<nat, Frame>)
      reads this, frames.Values
    {
      forall s :: s in frames && frames[s].gen == gen ==> s in slots && slots[s] == frames[s].frame
    }

    /** That condition is exact for the slots that the pips' Show names: without it some possible board lacks
        one of them. */
    lemma PipsNeedCurrent()
      ensures PipsCurrent() <==>
              forall slots: map<nat, Frame> :: Possible(slots) ==> HeldAt(slots, OnRecord(), PipSlots(Mem()))
    {
      hide PipSlots;
      var least := map s | s in frames && frames[s].gen == gen :: frames[s].frame;
      assert Possible(least);
    }

    /** Those are the slots known to be held. */
    lemma CurrentIsKnown()
      requires Valid() && dev != null
      ensures PipsCurrent() <==> AllCurrent(world, OnRecord(), PipSlots(Mem()))
    {
      hide PipSlots;
    }

    /** `showPipsAgain`: shows the keys with a pip, and unlike `show` stores nothing before that. */
    method ShowPipsAgain(board: Board, g: nat) returns (ev: seq<Event>)
      requires Valid()
      ensures ev == if dev == board && gen == g then PipsShow(Mem()) else []
      ensures world == Then(world, ev) && AllOk(ev) && Gone !in ev
      ensures ev != [] && PipsCurrent() ==> HeldAt(board.slots, OnRecord(), PipSlots(Mem()))
    {
      hide Then, Coherent, AllCurrent, HeldAt, OnRecord, PipsCurrent, Recorded, Counted;
      NoEvents(world, OnRecord());
      if dev != board || gen != g || !hasSheet || pips == map[] {
        return [];
      }
      var slots: seq<nat>, counts: seq<nat> := seq(KEYS, _ => SLOT_UNCHANGED), seq(KEYS, _ => 0);
      for key := 0 to KEYS
        invariant |slots| == KEYS && |counts| == KEYS
        invariant forall k: nat :: k < KEYS ==>
                    slots[k] == if k < key && k in pips && k in shown then shown[k] else SLOT_UNCHANGED
        invariant forall k: nat :: k < KEYS ==> counts[k] == if k < key && k in pips && k in shown then pips[k] else 0
      {
        if key in pips && key in shown {
          slots, counts := slots[key := shown[key]], counts[key := pips[key]];
        }
      }
      assert slots == PipSlots(Mem()) && counts == PipCounts(Mem());
      ThenOne(world, [], Showed(slots, Some(counts)));
      CurrentIsKnown();
      if PipsCurrent() {
        CurrentIsHeld(world, OnRecord(), slots);
      }
      return [Showed(slots, Some(counts))];
    }
  }

  /** A key shows slot 0 with a pip, before any board was connected. */
  method ShowOffline(f: Frame) returns (r: Reconnecting)
    ensures fresh(r) && r.Valid() && r.dev == null && r.hasSheet && r.gen == 0
    ensures r.frames.Keys == {0} && fresh(r.frames[0]) && r.frames[0].frame == f
    ensures 0 in r.shown && r.shown[0] == 0 && 0 in r.pips
  {
    hide Then, Stores, Shows, Coherent, Noted, Does, Once, AllOk, Reconnecting.Recorded, Reconnecting.Counted;
    r := new Reconnecting();
    var ev := r.StorePipSheet();
    var ok;
    ok, ev := r.StoreFrame(0, f);
    ok, ev := r.Show([0], Some([1]));
    ShownFirst(Memory(map[0 := f], map[], map[], true));
  }

  lemma ShownFirst(m: Memory)
    requires 0 in m.frames
    ensures var r := Remember(m, ShowNow([0], Some([1]))); 0 in r.shown && r.shown[0] == 0 && 0 in r.pips
  {
    assert Noted(m, [0], Some([1]), 0) == m;
  }

  /** The background work of the first connection stores slot 0 again. */
  method StoredAgain(f: Frame) returns (r: Reconnecting, board: Board)
    ensures fresh(r) && fresh(board) && r.Valid() && r.dev == board && r.gen == 1 && board.slots == map[0 := f]
            && r.steady
    ensures r.hasSheet && 0 in r.shown && r.shown[0] == 0 && 0 in r.pips && r.frames.Keys == {0}
  {
    hide Then, Stores, Coherent, Noted, Does, Once, AllOk, Restores, Reconnecting.Recorded;
    r := ShowOffline(f);
    board := new Board(map[]);
    var ev := r.Connect(board);
    r.Weather(Up, true);
    var more;
    more, ev := r.RestoreOne(board, 1, 0);
  }

  /** Then a new frame for it does not get there. */
  method FailedStore(f: Frame, g: Frame) returns (r: Reconnecting, board: Board)
    ensures r.Valid() && r.dev == board && r.gen == 1 && board.slots == map[0 := f]
    ensures 0 in r.OnRecord() && r.OnRecord()[0] == g && r.hasSheet && 0 in r.shown && r.shown[0] == 0 && 0 in r.pips
  {
    hide Then, Stores, Coherent, Noted, Does, Once, AllOk, Reconnecting.Recorded, Reconnecting.Counted;
    r, board := StoredAgain(f);
    r.Weather(Broken, true);
    var ok, ev := r.StoreFrame(0, g);
    assert 0 in r.Mem().frames;
  }

  /** Without its condition the pips' Show can name a slot that the board does not hold: a failed store came
      first. */
  method PipsShowCanMiss(f: Frame, g: Frame) returns (r: Reconnecting, board: Board, ev: seq<Event>)
    requires f != g
    ensures r.Valid() && r.dev == board && r.world.board == board.slots
    ensures ev == PipsShow(r.Mem()) && |ev| == 1 && !HeldAt(board.slots, r.OnRecord(), ev[0].slots)
  {
    hide Then, HeldAt, Reconnecting.PipsCurrent, Reconnecting.OnRecord, PipsShow;
    r, board := FailedStore(f, g);
    ev := r.ShowPipsAgain(board, 1);
    PipsNameFirst(r.Mem());
    NotHeld(board.slots, r.OnRecord(), ev[0].slots);
  }

  lemma PipsNameFirst(m: Memory)
    requires m.sheet && 0 in m.pips && 0 in m.shown
    ensures PipsShow(m) == [Showed(PipSlots(m), Some(PipCounts(m)))] && PipSlots(m)[0] == m.shown[0]
  {
  }

  lemma NotHeld(board: map<nat, Frame>, frames: map<nat, Frame>, slots: seq<nat>)
    requires slots != [] && slots[0] in frames && (slots[0] in board ==> board[slots[0]] != frames[slots[0]])
    ensures !HeldAt(board, frames, slots)
  {
  }

  // ---- Any run ----

  /** The boards that ever connected, the newest last: connection `c` is that of the board at `c`. */
  predicate AllLinks(r: Reconnecting, links: seq<Board>)
    reads r
  {
    && |links| == r.gen && (forall i, j :: 0 <= i < j < |links| ==> links[i] != links[j])
    && (r.dev != null ==> links != [] && links[|links| - 1] == r.dev)
  }

  /** The background work of one connection, the current one or a past one. */
  method Background(r: Reconnecting, links: seq<Board>, a: Action) returns (ev: seq<Event>)
    requires r.Valid() && AllLinks(r, links) && (a.Restore? || a.Miss? || a.Pips?)
    modifies r`dev, r`world, r.frames.Values, (set b | b in links)`slots
    ensures r.Valid() && r.Came(ev) && Does(a, r.Mem(), old(r.world), ev)
    ensures old(r.dev) != null && old(r.dev.link) == Up ==> AllOk(ev)
  {
    hide Then, Stores, Shows, Coherent, Answers, Restores, PipsShow, AllOk, Reconnecting.Recorded, Reconnecting.Counted;
    NoEvents(r.world, r.OnRecord());
    ev := [];
    match a {
      case Restore(c, slot) =>
        if c < |links| {
          var more;
          more, ev := r.RestoreOne(links[c], c + 1, slot);
        }
      case Miss(c, keys) =>
        if c < |links| {
          ev := r.HandleShowMiss(links[c], keys);
        }
      case Pips(c) =>
        if c < |links| {
          ev := r.ShowPipsAgain(links[c], c + 1);
        }
    }
  }

  /** One action of any kind, the background work of past connections among them. */
  method Act(r: Reconnecting, links: seq<Board>, a: Action) returns (ev: seq<Event>, all: seq<Board>)
    requires r.Valid() && AllLinks(r, links)
    modifies r, r.frames.Values, set b | b in links
    ensures r.Valid() && AllLinks(r, all) && links <= all && forall i :: |links| <= i < |all| ==> fresh(all[i])
    ensures forall s :: s in r.frames ==> r.frames[s] in old(r.frames.Values) || fresh(r.frames[s])
    ensures r.world == Then(old(r.world), ev) && r.Mem() == Remember(old(r.Mem()), a)
    ensures Does(a, old(r.Mem()), old(r.world), ev) && Safe(a, old(r.Mem()), old(r.world), ev)
    ensures old(r.dev) != null && old(r.dev.link) == Up ==> AllOk(ev)
    ensures old(r.steady) && !a.Drop? ==> Gone !in ev
    ensures r.steady == if a.Weather? then a.steady else old(r.steady)
    ensures old(r.dev) != null && (old(r.steady) || a.Weather? || a.ConnectTo?) && !a.Drop? ==> r.dev == old(r.dev)
    ensures r.dev != null && r.dev == old(r.dev) ==> r.dev.link == if a.Weather? then a.link else old(r.dev.link)
    ensures a.ConnectTo? ==> r.dev != null
  {
    hide Then, Stores, Shows, Safe, Coherent, Noted, Answers, Restores, StoresNew, PipsShow, Encodable, Once, AllOk,
      Reconnecting.Recorded, Reconnecting.Counted;
    NoEvents(r.world, r.OnRecord());
    ev, all := [], links;
    match a {
      case ConnectTo(contents) =>
        if r.dev == null {
          var b := new Board(contents);
          ev := r.Connect(b);
          all := links + [b];
        }
      case Drop => ev := r.Disconnect();
      case Weather(link, steady) => r.Weather(link, steady);
      case Store(slot, frame) =>
        var ok;
        ok, ev := r.StoreFrame(slot, frame);
      case ShowNow(slots, counts) =>
        var ok;
        ok, ev := r.Show(slots, counts);
      case Draw(key) => ev := r.KeyDrawn(key);
      case Sheet => ev := r.StorePipSheet();
      case _ => ev := Background(r, links, a);
    }
    DoesIsSafe(a, old(r.Mem()), old(r.world), ev);
  }

  /** What is sure after these actions, whatever the links did: a board is connected, its link is up, and
      no disconnect comes unasked. */
  datatype Surely = Surely(connected: bool, up: bool, steady: bool)

  function SureAfter(s: Surely, a: Action): Surely {
    if a.ConnectTo? then Surely(true, s.up, s.steady)
    else if a.Drop? then Surely(false, false, s.steady)
    else if a.Weather? then Surely(s.connected, s.connected && a.link == Up, a.steady)
    else Surely(s.connected && s.steady, s.up && s.steady, s.steady)
  }

  function Sure(script: seq<Action>): Surely {
    if script == [] then Surely(false, false, false)
    else SureAfter(Sure(script[..|script| - 1]), script[|script| - 1])
  }

  /** What all the events of a run come to. */
  function WorldAfter(done: seq<seq<Event>>): World {
    if done == [] then START else Then(WorldAfter(done[..|done| - 1]), done[|done| - 1])
  }

  /** Action `i` did what it does, after what the script stored and showed and after the events before it: all that
      it sent is safe, and what goes wrong is what its link allows. */
  predicate Right(script: seq<Action>, done: seq<seq<Event>>, i: nat)
    requires i < |script| && i < |done|
  {
    var m, w, sure := Remembered(script[..i]), WorldAfter(done[..i]), Sure(script[..i]);
    && Does(script[i], m, w, done[i]) && Safe(script[i], m, w, done[i])
    && (sure.up ==> AllOk(done[i])) && (sure.steady && !script[i].Drop? ==> Gone !in done[i])
  }

  lemma OneMoreAction(script: seq<Action>, done: seq<seq<Event>>, i: nat, ev: seq<Event>)
    requires i < |script| && |done| == i && forall j :: 0 <= j < i ==> Right(script, done, j)
    requires var m, w, sure := Remembered(script[..i]), WorldAfter(done), Sure(script[..i]);
             && Does(script[i], m, w, ev) && Safe(script[i], m, w, ev)
             && (sure.up ==> AllOk(ev)) && (sure.steady && !script[i].Drop? ==> Gone !in ev)
    ensures forall j :: 0 <= j < i + 1 ==> Right(script, done + [ev], j)
    ensures WorldAfter(done + [ev]) == Then(WorldAfter(done), ev)
    ensures Remembered(script[..i + 1]) == Remember(Remembered(script[..i]), script[i])
    ensures Sure(script[..i + 1]) == SureAfter(Sure(script[..i]), script[i])
  {
    hide Does, Safe, Sure, Remembered, Remember, Then;
    var more := done + [ev];
    assert more[..i] == done && script[..i + 1][..i] == script[..i];
    RememberedNext(script, i);
    forall j | 0 <= j < i + 1
      ensures Right(script, more, j)
    {
      if j < i {
        assert more[..j] == done[..j] && Right(script, done, j);
      }
    }
  }

  lemma RememberedNext(script: seq<Action>, i: nat)
    requires i < |script|
    ensures Remembered(script[..i + 1]) == Remember(Remembered(script[..i]), script[i])
    ensures Sure(script[..i + 1]) == SureAfter(Sure(script[..i]), script[i])
  {
    assert script[..i + 1][..i] == script[..i];
  }

  /** Any actions in any order, from nothing: each does what it should, and each Show that is sent names only slots
      that the board holds, at that moment, with the frame stored last. */
  method Run(script: seq<Action>) returns (done: seq<seq<Event>>)
    ensures |done| == |script| && forall i :: 0 <= i < |script| ==> Right(script, done, i)
  {
    hide Then, Does, Safe, Right, Sure, Remembered, WorldAfter, Remember, AllOk, Reconnecting.Valid;
    var r := new Reconnecting();
    var links: seq<Board> := [];
    done := [];
    Starts(script);
    for i := 0 to |script|
      invariant r.Valid() && AllLinks(r, links) && fresh(r) && forall s :: s in r.frames ==> fresh(r.frames[s])
      invariant forall j :: 0 <= j < |links| ==> fresh(links[j])
      invariant |done| == i && forall j :: 0 <= j < i ==> Right(script, done, j)
      invariant r.world == WorldAfter(done) && r.Mem() == Remembered(script[..i])
      invariant r.steady == Sure(script[..i]).steady && (Sure(script[..i]).connected ==> r.dev != null)
      invariant Sure(script[..i]).up ==> r.dev != null && r.dev.link == Up
    {
      var ev;
      ev, links := Act(r, links, script[i]);
      OneMoreAction(script, done, i, ev);
      done := done + [ev];
    }
  }

  lemma Starts(script: seq<Action>)
    ensures WorldAfter([]) == START && Remembered(script[..0]) == NOTHING
            && Sure(script[..0]) == Surely(false, false, false)
  {
  }
}
