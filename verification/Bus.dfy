// The shared lines and what drives them: firmware/pio_spi.py (ParallelBus) and firmware/st7735.py (Panel).
module Bus {
  import opened Bits

  const MAX_GROUP := 3
  const CASET: byte := 0x2A
  const RASET: byte := 0x2B
  const RAMWR: byte := 0x2C
  const COLSTART := 2
  const ROWSTART := 3
  const SIDE := 128

  function Members(keys: seq<nat>): set<nat> {
    set k | k in keys
  }

  function KeysBelow(n: nat): (r: set<nat>)
    ensures forall k :: k in r <==> 0 <= k < n
  {
    if n == 0 then {} else KeysBelow(n - 1) + {n - 1}
  }

  predicate Distinct(keys: seq<nat>) {
    forall i, j :: 0 <= i < j < |keys| ==> keys[i] != keys[j]
  }

  /** The first and the last of the `SIDE` lines from `start` on, each as two bytes, the high one first. */
  function Span(start: nat): (r: seq<byte>)
    requires start + SIDE <= 0x1_0000
    ensures |r| == 4
  {
    var end := start + SIDE - 1;
    [start / 256, start % 256, end / 256, end % 256]
  }

  /** A command goes out with DC low, its data with DC high, and no panel but `k` listens. */
  function Sent(k: nat, command: byte, data: seq<byte>): seq<Action> {
    [Wrote(k, false, [command], {k}, [])] + if data == [] then [] else [Wrote(k, true, data, {k}, [])]
  }

  /** What puts panel `k` in write mode at the first pixel of its full window: the columns, the rows, and a memory
      write. The command machine is built first when it is not there. */
  predicate SetsWindow(before: seq<Action>, after: seq<Action>, k: nat) {
    exists built ::
      && built in [[], [BuiltSingle(k, {k})]]
      && after == before + built + Sent(k, CASET, Span(COLSTART)) + Sent(k, RASET, Span(ROWSTART)) + Sent(k, RAMWR, [])
  }

  /** What reaches the panels, with the state of the lines at that moment. */
  datatype Action =
    | BuiltGroup(keys: seq<nat>, low: set<nat>)
    | BuiltSingle(key: nat, low: set<nat>)
    | Wrote(key: nat, dcHigh: bool, bytes: seq<byte>, low: set<nat>, onWire: seq<nat>)
    | Started(keys: seq<nat>, dcHigh: bool, low: set<nat>, midFrame: set<nat>)
    | FullySent(keys: seq<nat>)

  /** Group machines are built while no panel listens, and a command machine while at most its own does. A
      command reaches one panel, with no group on the wire. A group starts with DC high, on exactly its
      panels, each at the first pixel of its window. */
  predicate Safe(a: Action) {
    match a
    case BuiltGroup(_, low) => low == {}
    case BuiltSingle(key, low) => low == {key}
    case Wrote(key, _, _, low, onWire) => low == {key} && onWire == []
    case Started(keys, dcHigh, low, midFrame) =>
      dcHigh && low == Members(keys) && |keys| <= MAX_GROUP && low !! midFrame
    case FullySent(_) => true
  }

  // ---- What a panel makes of all that it hears ----

  /** The last command, the window, and whether the panel takes pixels and the next one is the first of the window. */
  datatype Ear = Ear(command: byte, columns: seq<byte>, rows: seq<byte>, writing: bool, first: bool)

  /** A panel hears what goes over the wires while its CS is low. A byte with DC low is a command, and those with DC
      high are its data. A whole frame fills the window, and the next pixel is the first one again. */
  function Hears(e: Ear, a: Action, k: nat): Ear {
    match a
    case Wrote(_, dcHigh, bytes, low, _) =>
      if k !in low then e
      else if !dcHigh then
        var write := bytes == [RAMWR];
        e.(command := if bytes == [] then 0 else bytes[0], writing := write, first := write)
      else if e.command == CASET then e.(columns := bytes)
      else if e.command == RASET then e.(rows := bytes)
      else e.(first := false)
    case BuiltGroup(_, low) => if k in low then e.(first := false) else e
    case Started(_, _, low, _) => if k in low then e.(first := false) else e
    case FullySent(keys) => if k in keys then e.(first := e.writing) else e
    case BuiltSingle(_, _) => e
  }

  function EarOf(log: seq<Action>, k: nat): Ear {
    if log == [] then Ear(0, [], [], false, false) else Hears(EarOf(log[..|log| - 1], k), log[|log| - 1], k)
  }

  /** In write mode, with the full window. */
  predicate Writing(log: seq<Action>, k: nat) {
    var e := EarOf(log, k);
    e.writing && e.columns == Span(COLSTART) && e.rows == Span(ROWSTART)
  }

  /** The next pixel that the panel takes is the first one of its full window. */
  predicate AtFirst(log: seq<Action>, k: nat) {
    Writing(log, k) && EarOf(log, k).first
  }

  lemma EarNext(log: seq<Action>, a: Action)
    ensures forall k :: EarOf(log + [a], k) == Hears(EarOf(log, k), a, k)
  {
    assert (log + [a])[..|log|] == log;
  }

  /** Another panel hears nothing of a command. */
  lemma {:induction false} OthersHearNothing(log: seq<Action>, more: seq<Action>, k: nat)
    requires forall i :: 0 <= i < |more| ==> more[i].BuiltSingle? || (more[i].Wrote? && more[i].low == {k})
    ensures forall j :: j != k ==> EarOf(log + more, j) == EarOf(log, j)
  {
    if more == [] {
      assert log + more == log;
    } else {
      var n := |more| - 1;
      OthersHearNothing(log, more[..n], k);
      EarNext(log + more[..n], more[n]);
      assert log + more == log + more[..n] + [more[n]];
    }
  }

  /** After the three commands the panel is in write mode at the first pixel of its full window. */
  lemma WindowIsSet(before: seq<Action>, after: seq<Action>, k: nat)
    requires SetsWindow(before, after, k)
    ensures forall j :: AtFirst(after, j) <==> j == k || AtFirst(before, j)
  {
    hide Span, EarOf;
    var built :| built in [[], [BuiltSingle(k, {k})]]
                 && after == before + built + Sent(k, CASET, Span(COLSTART)) + Sent(k, RASET, Span(ROWSTART))
                             + Sent(k, RAMWR, []);
    var columns, rows := Span(COLSTART), Span(ROWSTART);
    var a, b := [Wrote(k, false, [CASET], {k}, []), Wrote(k, true, columns, {k}, [])],
                [Wrote(k, false, [RASET], {k}, []), Wrote(k, true, rows, {k}, [])];
    var c := [Wrote(k, false, [RAMWR], {k}, [])];
    assert after == before + (built + a + b + c);
    OthersHearNothing(before, built + a + b + c, k);
    var l0 := before + built;
    EarNext(l0, a[0]);
    EarNext(l0 + [a[0]], a[1]);
    EarNext(l0 + [a[0]] + [a[1]], b[0]);
    EarNext(l0 + [a[0]] + [a[1]] + [b[0]], b[1]);
    EarNext(l0 + [a[0]] + [a[1]] + [b[0]] + [b[1]], c[0]);
    assert after == l0 + [a[0]] + [a[1]] + [b[0]] + [b[1]] + [c[0]];
  }

  /** The shared DC line and the CS lines, and a record of everything that went over the wires. */
  class Lines {
    var dcHigh: bool
    // The panels whose CS is low.
    var low: set<nat>
    ghost var log: seq<Action>
    ghost const n: nat

    constructor (ghost n: nat)
      ensures !dcHigh && low == {} && log == [] && this.n == n && MidFrame() == KeysBelow(n)
    {
      this.n, dcHigh, low, log := n, false, {}, [];
    }

    /** The panels for which a next pixel would not be the first one of the full window. */
    ghost function MidFrame(): (r: set<nat>)
      reads this`log
      ensures forall k :: k in r <==> 0 <= k < n && !AtFirst(log, k)
    {
      set k | k in KeysBelow(n) && !AtFirst(log, k)
    }

    ghost predicate AllSafe()
      reads this`log
    {
      forall i :: 0 <= i < |log| ==> Safe(log[i])
    }
  }

  /** How the group's transfers stand when `done` looks: a DMA still writes, every follower has stalled on
      its next pull, the deadline has passed. */
  datatype Look = Look(writing: bool, stalled: bool, late: bool)

  /** What a look says of a group: its transfers have ended, well or badly. The stall flags count only once
      an earlier look cleared them. */
  predicate Ends(look: Look, cleared: bool) {
    if look.writing then look.late else cleared && (look.stalled || look.late)
  }

  predicate EndsWell(look: Look) {
    !look.writing && look.stalled
  }

  /** pio_spi.py's ParallelBus. Its two RuntimeErrors, for a command or a group while one is on the wire, are
      the preconditions `group == []`. */
  class ParallelBus {
    const lines: Lines
    var leader: bool
    var followers: set<nat>
    var single: Option<nat>
    var group: seq<nat>
    var cleared: bool
    var desynced: bool

    constructor (lines: Lines)
      ensures this.lines == lines && Valid() && group == [] && single == None && !leader
    {
      this.lines := lines;
      leader, followers, single, group, cleared, desynced := false, {}, None, [], false, false;
    }

    /** Command and parallel machines never exist together, and a group on the wire has its machines, DC
        high, and exactly its own panels listening. */
    ghost predicate Valid()
      reads this, lines
    {
      && (leader || followers == {}) && !(leader && single.Some?)
      && (group != [] ==> leader && followers == Members(group) && lines.dcHigh && lines.low == Members(group)
                          && lines.low <= lines.MidFrame() && !desynced
                          && forall k :: k in group ==> Writing(lines.log, k))
    }

    method Teardown()
      modifies this`leader, this`followers, this`single, this`group
      ensures !leader && followers == {} && single == None && group == []
    {
      group, followers, leader, single := [], {}, false, None;
    }

    method EnterCommandMode(key: nat)
      requires Valid() && group == [] && lines.AllSafe() && lines.low == {key}
      modifies this`leader, this`followers, this`single, this`group, lines`log
      ensures Valid() && group == [] && lines.AllSafe() && single == Some(key) && !leader
      ensures lines.log == old(lines.log) + if old(single) == Some(key) then [] else [BuiltSingle(key, {key})]
    {
      if single == Some(key) {
        return;
      }
      Teardown();
      lines.log := lines.log + [BuiltSingle(key, lines.low)];
      single := Some(key);
    }

    method EnterParallelMode(keys: seq<nat>)
      requires Valid() && group == [] && lines.AllSafe() && 0 < |keys| <= MAX_GROUP
      requires (leader && followers == Members(keys)) || lines.low == {}
      modifies this`leader, this`followers, this`single, this`group, lines`log
      ensures Valid() && group == [] && lines.AllSafe() && leader && followers == Members(keys)
      ensures forall k :: EarOf(lines.log, k) == old(EarOf(lines.log, k))
      ensures leader && followers == Members(keys) && old(leader && followers == Members(keys)) ==>
                lines.log == old(lines.log)
    {
      if leader && followers == Members(keys) {
        return;
      }
      Teardown();
      EarNext(lines.log, BuiltGroup(keys, lines.low));
      lines.log := lines.log + [BuiltGroup(keys, lines.low)];
      followers, leader := Members(keys), true;
    }

    /** Sends a command, or its data, to one panel. */
    method Write(key: nat, bytes: seq<byte>)
      requires Valid() && group == [] && lines.AllSafe() && lines.low == {key}
      modifies this`leader, this`followers, this`single, this`group, lines`log
      ensures Valid() && group == [] && lines.AllSafe() && single == Some(key)
      ensures lines.log == old(lines.log) + (if old(single) == Some(key) then [] else [BuiltSingle(key, {key})])
                           + [Wrote(key, lines.dcHigh, bytes, {key}, [])]
    {
      EnterCommandMode(key);
      lines.log := lines.log + [Wrote(key, lines.dcHigh, bytes, lines.low, group)];
    }

    method PrepareGroup(keys: seq<nat>)
      requires Valid() && group == [] && lines.AllSafe() && 0 < |keys| <= MAX_GROUP && lines.low == {}
      modifies this`leader, this`followers, this`single, this`group, lines`log
      ensures Valid() && group == [] && lines.AllSafe() && leader && followers == Members(keys)
      ensures forall k :: EarOf(lines.log, k) == old(EarOf(lines.log, k))
    {
      EnterParallelMode(keys);
    }

    method StartGroup(keys: seq<nat>)
      requires Valid() && group == [] && lines.AllSafe() && 0 < |keys| <= MAX_GROUP
      requires leader && followers == Members(keys)
      requires lines.dcHigh && lines.low == Members(keys) && lines.low !! lines.MidFrame()
      requires forall k :: k in keys ==> k < lines.n
      modifies this`leader, this`followers, this`single, this`group, this`cleared, this`desynced, lines`log
      ensures Valid() && group == keys && lines.AllSafe() && lines.MidFrame() == old(lines.MidFrame()) + Members(keys)
    {
      EnterParallelMode(keys);
      desynced, cleared := false, false;
      ghost var start := Started(keys, lines.dcHigh, lines.low, lines.MidFrame());
      EarNext(lines.log, start);
      lines.log := lines.log + [start];
      group := keys;
    }

    /** `done`: true when no group is on the wire. `desynced` says that it ended before every follower had
        shifted out its frame. */
    method Done(look: Look) returns (r: bool)
      requires Valid()
      modifies this`leader, this`followers, this`single, this`group, this`cleared, this`desynced, lines`log
      ensures Valid() && (old(lines.AllSafe()) ==> lines.AllSafe()) && (r <==> group == [])
              && r == (old(group) == [] || Ends(look, old(cleared)))
      ensures !r ==> group == old(group) && desynced == old(desynced) && cleared == (old(cleared) || !look.writing)
      ensures old(group) == [] ==> desynced == old(desynced)
      ensures old(group) != [] && r ==> desynced == !EndsWell(look)
      ensures lines.MidFrame() == if old(group) != [] && r && !desynced then old(lines.MidFrame()) - Members(old(group))
              else old(lines.MidFrame())
      ensures old(group) == [] ==> lines.log == old(lines.log)
    {
      if group == [] {
        return true;
      }
      if look.writing {
        r := DesyncAfter(look.late);
        return;
      }
      if !cleared {
        cleared := true;
        return false;
      }
      if look.stalled {
        EarNext(lines.log, FullySent(group));
        lines.log := lines.log + [FullySent(group)];
        group := [];
        return true;
      }
      r := DesyncAfter(look.late);
    }

    method DesyncAfter(late: bool) returns (r: bool)
      requires Valid() && group != []
      modifies this`leader, this`followers, this`single, this`group, this`desynced
      ensures Valid() && r == late && (r ==> group == [] && desynced)
      ensures !r ==> group == old(group) && desynced == old(desynced)
    {
      if !late {
        return false;
      }
      Teardown();
      desynced := true;
      return true;
    }
  }

  /** The st7735.py Panel of every key: one entry of each field a panel. */
  class Panels<F(==)> {
    const n: nat
    const lines: Lines
    const bus: ParallelBus
    var busy: seq<bool>
    var needsWindow: seq<bool>
    // The frame each panel keeps alive while it is on the wire.
    var frame: seq<Option<F>>

    constructor (n: nat, lines: Lines, bus: ParallelBus)
      requires bus.lines == lines && lines.low == {} && lines.n == n && lines.MidFrame() == KeysBelow(n)
      ensures this.n == n && this.lines == lines && this.bus == bus && Valid()
      ensures forall k :: 0 <= k < n ==> !busy[k]
    {
      this.n, this.lines, this.bus := n, lines, bus;
      busy, needsWindow, frame := seq(n, _ => false), seq(n, _ => true), seq(n, _ => None);
    }

    /** A CS is low only for a busy panel, and a panel that is not at the start of its window and has no
        frame on the wire gets its window again before the next one. */
    ghost predicate Valid()
      reads this, bus, lines
    {
      && bus.lines == lines && lines.n == n && |busy| == |needsWindow| == |frame| == n
      && (forall k :: k in lines.low ==> k < n && busy[k])
      && (forall k :: k in lines.MidFrame() ==> k < n && (needsWindow[k] || busy[k]))
      && (forall k :: 0 <= k < n ==> busy[k] == (k in lines.low) && busy[k] == frame[k].Some?)
    }

    /** Nothing is on the wire and no panel listens. */
    ghost predicate Quiet()
      reads this, bus, lines
    {
      Valid() && bus.Valid() && bus.group == [] && lines.AllSafe() && lines.low == {}
    }

    /** `_command`: the command with DC low, then its data, if it has any, with DC high. */
    method Command(k: nat, command: byte, data: seq<byte>)
      requires bus.lines == lines && bus.Valid() && bus.group == [] && lines.AllSafe() && lines.low == {k}
      modifies bus`leader, bus`followers, bus`single, bus`group, lines`log, lines`dcHigh
      ensures bus.Valid() && bus.group == [] && lines.AllSafe() && bus.single == Some(k)
      ensures lines.log == old(lines.log) + (if old(bus.single) == Some(k) then [] else [BuiltSingle(k, {k})])
                           + Sent(k, command, data)
    {
      lines.dcHigh := false;
      bus.Write(k, [command]);
      if data != [] {
        lines.dcHigh := true;
        bus.Write(k, data);
      }
    }

    /** The three commands of `setup_window`. */
    method SendWindow(k: nat)
      requires bus.lines == lines && bus.Valid() && bus.group == [] && lines.AllSafe() && lines.low == {k}
      modifies bus`leader, bus`followers, bus`single, bus`group, lines`log, lines`dcHigh
      ensures bus.Valid() && bus.group == [] && lines.AllSafe() && SetsWindow(old(lines.log), lines.log, k)
    {
      hide Span, Sent, ParallelBus.Valid, Lines.AllSafe;
      ghost var built := if bus.single == Some(k) then [] else [BuiltSingle(k, {k})];
      Command(k, CASET, Span(COLSTART));
      Command(k, RASET, Span(ROWSTART));
      Command(k, RAMWR, []);
      assert lines.log == old(lines.log) + built + Sent(k, CASET, Span(COLSTART)) + Sent(k, RASET, Span(ROWSTART))
                          + Sent(k, RAMWR, []);
    }

    /** `setup_window`: afterwards the panel is in write mode at its first pixel. */
    method SetupWindow(k: nat)
      requires Quiet() && k < n
      modifies this`needsWindow, bus`leader, bus`followers, bus`single, bus`group, lines
      ensures Quiet() && needsWindow == old(needsWindow)[k := false] && lines.MidFrame() == old(lines.MidFrame()) - {k}
      ensures SetsWindow(old(lines.log), lines.log, k)
    {
      hide AtFirst, SetsWindow, Lines.AllSafe;
      lines.low := lines.low + {k};
      SendWindow(k);
      WindowIsSet(old(lines.log), lines.log, k);
      lines.low := lines.low - {k};
      needsWindow := needsWindow[k := false];
    }

    method PreparePush(k: nat)
      requires Quiet() && k < n
      modifies this`needsWindow, bus`leader, bus`followers, bus`single, bus`group, lines
      ensures Quiet() && k !in lines.MidFrame() && lines.MidFrame() <= old(lines.MidFrame())
      ensures if old(needsWindow[k]) then SetsWindow(old(lines.log), lines.log, k) else lines.log == old(lines.log)
    {
      if needsWindow[k] {
        SetupWindow(k);
      }
    }

    /** `begin_push`: its RuntimeError is the precondition that the panel is not busy. */
    method BeginPush(k: nat, f: F)
      requires Valid() && k < n && !busy[k] && k !in lines.MidFrame()
      modifies this`frame, this`busy, lines`dcHigh, lines`low
      ensures Valid() && lines.dcHigh && lines.low == old(lines.low) + {k}
      ensures busy == old(busy)[k := true] && frame == old(frame)[k := Some(f)]
    {
      lines.dcHigh := true;
      lines.low := lines.low + {k};
      frame := frame[k := Some(f)];
      busy := busy[k := true];
    }

    method AbortPush(k: nat)
      requires Valid() && k < n
      modifies this`frame, this`busy, this`needsWindow, lines`low
      ensures Valid() && lines.low == old(lines.low) - {k}
      ensures busy == old(busy)[k := false] && needsWindow == old(needsWindow)[k := true]
              && frame == old(frame)[k := None]
    {
      lines.low := lines.low - {k};
      frame := frame[k := None];
      busy := busy[k := false];
      needsWindow := needsWindow[k := true];
    }

    /** `poll` when the bus is done: the panel is idle, and its CS is high. */
    method Poll(k: nat) returns (idle: bool)
      requires Valid() && bus.Valid() && k < n && bus.group == [] && k !in lines.MidFrame()
      modifies this`frame, this`busy, lines`low, bus, lines`log
      ensures Valid() && bus.Valid() && idle && lines.low == old(lines.low) - {k} && bus.group == []
      ensures busy == old(busy)[k := false] && frame == old(frame)[k := None] && lines.log == old(lines.log)
    {
      if busy[k] {
        var done := bus.Done(Look(false, false, false));
        if done {
          lines.low := lines.low - {k};
          frame := frame[k := None];
          busy := busy[k := false];
        }
      }
      return !busy[k];
    }
  }
}
