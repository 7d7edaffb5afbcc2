// firmware/wire.py CustomGlyphReader: frames read piece by piece from a port, at most one inflate in
// progress on the second core, and at most one whole frame held behind it.
module Reader {
  import opened Bits
  import opened Sizes
  import opened Wire

  /** The bytes the host sent. When they arrive, and how many one read gives, is open. */
  class Port {
    const data: seq<byte>
    var pos: nat
    var arrived: nat
    // How many reads gave nothing though bytes waited, and how often none waited.
    ghost var empty: nat
    ghost var quiet: nat

    constructor (data: seq<byte>)
      ensures this.data == data && pos == 0 && arrived == 0 && empty == 0 && quiet == 0
    {
      this.data, pos, arrived, empty, quiet := data, 0, 0, 0, 0;
    }

    method InWaiting() returns (n: nat)
      requires pos <= arrived <= |data|
      modifies this`arrived, this`quiet
      ensures old(arrived) <= arrived <= |data| && n == arrived - pos
      ensures quiet == old(quiet) + if n == 0 then 1 else 0
    {
      var more: int := *;
      if arrived < more <= |data| {
        arrived := more;
      }
      n := arrived - pos;
      quiet := quiet + if n == 0 then 1 else 0;
    }

    /** Reads at most `n` bytes into `buffer` from `at` on. */
    method ReadInto(buffer: array<byte>, at: nat, n: nat) returns (got: nat)
      requires at + n <= buffer.Length && pos + n <= arrived <= |data|
      modifies this`pos, this`empty, buffer
      ensures got <= n && pos == old(pos) + got && empty >= old(empty) && (n > 0 ==> got > 0 || empty > old(empty))
      ensures buffer[..at] == old(buffer[..at]) && buffer[at..at + got] == data[old(pos)..old(pos) + got]
    {
      var some: int := *;
      got := if 0 <= some <= n then some else n;
      empty := empty + if got == 0 then 1 else 0;
      for i := 0 to got
        modifies this`pos, buffer
        invariant pos == old(pos) + i && buffer[..at] == old(buffer[..at])
        invariant buffer[at..at + i] == data[old(pos)..old(pos) + i]
      {
        buffer[at + i] := data[pos];
        pos := pos + 1;
      }
    }
  }

  datatype Event = Nothing | Got(message: Message) | Error

  function Told(e: Event): seq<Message> {
    if e.Got? then [e.message] else []
  }

  function Raised(e: Event): nat {
    if e.Error? then 1 else 0
  }

  /** The length that the three header bytes declare. */
  function Declared(b: seq<byte>): nat
    requires |b| >= HEADER
  {
    Join(b[1], b[2])
  }

  /** The bytes are one whole frame. */
  predicate Whole(b: seq<byte>) {
    |b| >= HEADER && |b| == HEADER + Declared(b)
  }

  function FrameOf(b: seq<byte>): (f: Frame)
    requires Whole(b)
    ensures |f.payload| < 65536 && Bytes(f) == b
  {
    WholeIsBytes(b);
    Frame(b[0], b[HEADER..])
  }

  lemma WholeIsBytes(b: seq<byte>)
    requires Whole(b)
    ensures Bytes(Frame(b[0], b[HEADER..])) == b
  {
  }

  lemma {:induction false} AllBytesAppend(a: seq<Frame>, f: Frame)
    requires (forall i :: 0 <= i < |a| ==> |a[i].payload| < 65536) && |f.payload| < 65536
    ensures AllBytes(a + [f]) == AllBytes(a) + Bytes(f)
  {
    if a == [] {
      assert [f][1..] == [];
    } else {
      assert (a + [f])[1..] == a[1..] + [f];
      AllBytesAppend(a[1..], f);
    }
  }

  /** The board knows the frame's type, and makes no message of it: an error. */
  predicate Bad(z: Codec, f: Frame) {
    Known(f.kind) && MessagesOf(z, f) == []
  }

  predicate AllGood(z: Codec, frames: seq<Frame>) {
    forall i :: 0 <= i < |frames| ==> !Bad(z, frames[i])
  }

  lemma GoodAppend(z: Codec, frames: seq<Frame>, f: Frame)
    ensures AllGood(z, frames + [f]) <==> AllGood(z, frames) && !Bad(z, f)
  {
    hide Bad;
    assert (frames + [f])[|frames|] == f;
    assert forall i :: 0 <= i < |frames| ==> (frames + [f])[i] == frames[i];
  }

  lemma BadIs(z: Codec, f: Frame)
    ensures Bad(z, f) <==> Known(f.kind) && MessagesOf(z, f) == []
    ensures Allowed(f.kind, |f.payload|) ==> Known(f.kind)
  {
  }

  class CustomGlyphReader {
    const z: Codec
    const hasCore1: bool
    const port: Port
    const frame: array<byte>
    var filled: nat
    var total: nat
    var skip: nat
    var badLength: bool
    // The frame whose stream the second core inflates.
    var pending: Option<Frame>
    // A whole frame waits in `frame` behind it.
    var stalled: bool
    var dropped: nat

    // The whole frames read so far, the bytes of the next one, and the messages returned.
    ghost var frames: seq<Frame>
    ghost var partial: seq<byte>
    ghost var told: seq<Message>
    // How many errors it raised, and how often it found the second core still at work.
    ghost var raised: nat
    ghost var waits: nat
    // How often it found an inflate still running past its time.
    ghost var overdue: nat

    constructor (z: Codec, hasCore1: bool, port: Port)
      requires port.pos == port.arrived == 0
      ensures this.z == z && this.port == port && this.hasCore1 == hasCore1 && Valid() && told == [] && fresh(frame)
      ensures raised == waits == dropped == 0
    {
      this.z, this.hasCore1, this.port := z, hasCore1, port;
      frame := new byte[HEADER + GLYPH_PAYLOAD];
      filled, total, skip, badLength, pending, stalled, dropped := 0, 0, 0, false, None, false, 0;
      frames, partial, told, raised, waits, overdue := [], [], [], 0, 0, 0;
    }

    /** Every byte read is in a whole frame or in the next one, and every whole frame's messages were
        returned or are under way, in order, unless an inflate took too long. */
    ghost predicate Accounted()
      reads this, port, frame
    {
      && Read()
      && (pending.Some? ==> Allowed(pending.value.kind, |pending.value.payload|) && StreamOf(pending.value).Some?)
      && (stalled ==> partial == [] && filled <= frame.Length && Held(frame[..filled]))
      && (!hasCore1 ==> pending == None && dropped == waits == 0) && dropped == overdue
      && (dropped == 0 ==> AllMessages(z, frames) == told + UnderWay())
      && (AllGood(z, frames) ==> raised == 0 && (pending.Some? ==> !Bad(z, pending.value)))
      && (AllGood(z, frames) && stalled && filled <= frame.Length && Whole(frame[..filled]) ==>
            !Bad(z, FrameOf(frame[..filled])))
    }

    ghost predicate Read()
      reads this, port
    {
      && frame.Length == HEADER + GLYPH_PAYLOAD && port.pos <= port.arrived <= |port.data|
      && (forall i :: 0 <= i < |frames| ==> |frames[i].payload| < 65536)
      && port.data[..port.pos] == AllBytes(frames) + partial
    }

    ghost predicate Held(b: seq<byte>) {
      Whole(b) && Allowed(b[0], Declared(b))
    }

    ghost function UnderWay(): seq<Message>
      reads this, frame
    {
      (if pending.Some? then MessagesOf(z, pending.value) else [])
      + (if stalled && filled <= frame.Length && Whole(frame[..filled]) then MessagesOf(z, FrameOf(frame[..filled]))
          else [])
    }

    /** The next frame is a part of one: in the buffer, or being thrown away. */
    ghost predicate InPart()
      reads this, frame
    {
      if skip > 0 then
        filled == 0 && |partial| >= HEADER && |partial| + skip == HEADER + Declared(partial)
        && !Allowed(partial[0], Declared(partial)) && (badLength ==> Known(partial[0]))
      else
        && filled <= frame.Length && partial == frame[..filled]
        && (filled >= HEADER ==>
             Allowed(partial[0], Declared(partial)) && total == HEADER + Declared(partial) && filled < total)
    }

    ghost predicate Valid()
      reads this, port, frame
    {
      Accounted() && (stalled ==> skip == 0) && (!stalled ==> InPart())
    }

    /** The next frame has arrived whole: in the buffer, or thrown away. */
    ghost predicate Complete()
      reads this, frame
    {
      && Whole(partial) && skip == 0
      && (filled > 0 ==> filled <= frame.Length && partial == frame[..filled])
      && (filled > 0 <==> Allowed(partial[0], Declared(partial))) && (filled == 0 && badLength ==> Known(partial[0]))
    }

    /** What the calls of `feed` have come to: bytes read, messages and errors, and whatever kept them waiting. */
    ghost function Progress(): nat
      reads this, port
    {
      port.pos + port.empty + port.quiet + |told| + raised + waits + dropped
    }

    /** When bytes wait, some are read, unless the port gives none. */
    twostate predicate Asked(available: nat)
      reads port
    {
      && port.pos >= old(port.pos) && port.empty >= old(port.empty) && port.arrived == old(port.arrived)
         && port.quiet == old(port.quiet)
      && (available > 0 ==> port.pos > old(port.pos) || port.empty > old(port.empty))
    }

    /** Throws away some bytes of a frame that the board does not take. */
    method ConsumeSkipped(available: nat) returns (complete: bool)
      requires Valid() && !stalled && skip > 0 && port.pos + available <= port.arrived
      modifies this`skip, this`partial, port`pos, port`empty, frame
      ensures Accounted() && (complete ==> Complete()) && (!complete ==> InPart()) && Asked(available)
    {
      hide AllBytes, AllMessages, MessagesOf, Bad, AllGood, Allowed, Join;
      var n := if available < skip then available else skip;
      n := if n < frame.Length then n else frame.Length;
      ghost var start := port.pos;
      var got := port.ReadInto(frame, 0, n);
      Grown(frames, partial, port.data, start, got);
      partial := partial + port.data[start..start + got];
      skip := skip - got;
      return skip == 0;
    }

    /** Reads at most `n` more bytes of the frame in the buffer. */
    method ConsumeInto(n: nat) returns (got: nat)
      requires Valid() && !stalled && skip == 0 && filled + n <= frame.Length && port.pos + n <= port.arrived
      modifies this`filled, this`partial, port`pos, port`empty, frame
      ensures Accounted() && got <= n && filled == old(filled) + got && partial == frame[..filled]
      ensures frame[..old(filled)] == old(frame[..filled]) && Asked(n)
    {
      hide AllBytes, AllMessages, MessagesOf, Bad, AllGood, Allowed, Join;
      ghost var start := port.pos;
      got := port.ReadInto(frame, filled, n);
      Grown(frames, partial, port.data, start, got);
      partial := partial + port.data[start..start + got];
      assert frame[..filled + got] == frame[..filled] + frame[filled..filled + got];
      filled := filled + got;
    }

    /** `_consume`: reads some bytes of the next frame, never past its end. */
    method Consume(available: nat) returns (complete: bool)
      requires Valid() && !stalled && port.pos + available <= port.arrived
      modifies this`filled, this`total, this`skip, this`badLength, this`partial, port`pos, port`empty, frame
      ensures Accounted() && (complete ==> Complete()) && (!complete ==> InPart()) && Asked(available)
    {
      hide AllBytes, AllMessages, MessagesOf, Bad, AllGood, Allowed, Join;
      if skip > 0 {
        complete := ConsumeSkipped(available);
        return;
      }
      AllowedFits(if filled >= HEADER then frame[0] else 0, total as int - HEADER);
      ghost var before := frame[..filled];
      if filled >= HEADER {
        var n := if available < total - filled then available else total - filled;
        var got := ConsumeInto(n);
        assert partial[..HEADER] == before[..HEADER];
        return filled == total;
      }
      var n := if available < HEADER - filled then available else HEADER - filled;
      var got := ConsumeInto(n);
      if filled < HEADER {
        return false;
      }
      var length := Join(frame[1], frame[2]);
      AllowedFits(frame[0], length);
      if Allowed(frame[0], length) {
        total := HEADER + length;
        return false;
      }
      badLength := Known(frame[0]);
      filled, skip := 0, length;
      return length == 0;
    }

    /** `_dispatch`: the message of the whole frame in the buffer, or the start of its inflate. */
    method Dispatch() returns (e: Event)
      requires filled <= frame.Length && Held(frame[..filled]) && pending == None
      modifies this`filled, this`pending
      ensures filled == 0
      ensures var f := FrameOf(old(frame[..filled]));
              if pending == None then Told(e) == MessagesOf(z, f)
              else hasCore1 && e == Nothing && pending == Some(f) && Allowed(f.kind, |f.payload|) && StreamOf(f).Some?
    {
      hide DecodePlain, WithPixels, StreamOf, Bytes, Join;
      var f := FrameOf(frame[..filled]);
      filled := 0;
      if StreamOf(f).None? {
        var m := DecodePlain(z, f);
        return if m.None? then Error else Got(m.value);
      }
      // A stream goes to the second core when there is one and it takes the job.
      var busy := *;
      if hasCore1 && !busy {
        pending := Some(f);
        return Nothing;
      }
      var pixels := z.inflate(StreamOf(f).value);
      return if pixels.None? then Error else Got(WithPixels(f, pixels.value));
    }

    /** How the inflate stands is up to the second core: still running, and if so past its time. */
    method Poll() returns (running: bool, late: bool)
      modifies this`overdue
      ensures overdue == old(overdue) + if running && late then 1 else 0
    {
      running, late := *, *;
      overdue := overdue + if running && late then 1 else 0;
    }

    /** `_collect`: the message of the inflate that is done; one that takes too long, and no other, is dropped. */
    method Collect() returns (e: Event)
      requires pending.Some? && Allowed(pending.value.kind, |pending.value.payload|) && StreamOf(pending.value).Some?
      modifies this`pending, this`dropped, this`waits, this`overdue
      ensures dropped - old(dropped) == overdue - old(overdue)
      ensures pending == old(pending) ==> e == Nothing && dropped == old(dropped) && waits == old(waits) + 1
      ensures waits >= old(waits) && (e == Nothing ==> waits > old(waits) || dropped > old(dropped))
      ensures pending != old(pending) ==> pending == None
      ensures pending != old(pending) && dropped == old(dropped) ==> Told(e) == MessagesOf(z, old(pending).value)
      ensures dropped >= old(dropped) && (dropped != old(dropped) ==> e == Nothing)
    {
      var running, late := Poll();
      if running {
        if late {
          pending := None;
          dropped := dropped + 1;
        } else {
          waits := waits + 1;
        }
        return Nothing;
      }
      var f := pending.value;
      var pixels := z.inflate(StreamOf(f).value);
      pending := None;
      return if pixels.None? then Error else Got(WithPixels(f, pixels.value));
    }

    /** The frame in the buffer has its turn: no inflate is in progress. */
    method Begin() returns (e: Event)
      requires !stalled && pending == None && skip == 0 && partial == [] && filled <= frame.Length
               && Held(frame[..filled])
      requires Read() && (!hasCore1 ==> dropped == waits == 0) && dropped == overdue
      requires dropped == 0 ==> AllMessages(z, frames) == told + MessagesOf(z, FrameOf(frame[..filled]))
      requires AllGood(z, frames) ==> raised == 0 && !Bad(z, FrameOf(frame[..filled]))
      modifies this`filled, this`pending, this`told, this`raised
      ensures Valid() && told == old(told) + Told(e) && raised == old(raised) + Raised(e)
    {
      hide AllBytes, AllMessages, MessagesOf, Bad, AllGood, StreamOf, Allowed, Join, Bytes;
      BadIs(z, FrameOf(frame[..filled]));
      e := Dispatch();
      told, raised := told + Told(e), raised + Raised(e);
    }

    /** `_finish`: the frame that has arrived whole is returned, begun, held, or was thrown away. */
    method Finish() returns (e: Event)
      requires Accounted() && Complete() && !stalled
      modifies this`filled, this`pending, this`stalled, this`badLength, this`frames, this`partial, this`told
      modifies this`raised
      ensures Valid() && told == old(told) + Told(e) && raised == old(raised) + Raised(e)
    {
      hide AllBytes, AllMessages, MessagesOf, Bad, AllGood, StreamOf, Allowed, Join, Bytes;
      ghost var f := FrameOf(partial);
      AllBytesAppend(frames, f);
      AllMessagesAppend(z, frames, f);
      GoodAppend(z, frames, f);
      BadIs(z, f);
      frames, partial := frames + [f], [];
      if filled > 0 {
        if pending.Some? {
          stalled := true;
          return Nothing;
        }
        e := Begin();
        return;
      }
      Silent(z, f);
      var bad := badLength;
      badLength := false;
      e := if bad then Error else Nothing;
      raised := raised + Raised(e);
    }

    /** `_advance`: moves the inflate in progress and the held frame on. */
    method Advance() returns (e: Event)
      requires Valid() && (pending.Some? || stalled)
      modifies this`filled, this`pending, this`stalled, this`dropped, this`told, this`raised, this`waits, this`overdue
      ensures Valid() && told == old(told) + Told(e) && raised == old(raised) + Raised(e)
      ensures dropped >= old(dropped) && waits >= old(waits)
      ensures e == Nothing && stalled ==> waits > old(waits)
    {
      hide AllBytes, AllMessages, MessagesOf, Bad, AllGood, StreamOf, Allowed, Join, Bytes;
      if pending.Some? {
        BadIs(z, pending.value);
        e := Collect();
        told, raised := told + Told(e), raised + Raised(e);
        if e != Nothing || pending.Some? {
          return;
        }
      }
      if stalled {
        e := Release();
        return;
      }
      return Nothing;
    }

    /** The rest of `_advance`: the held frame's turn comes. */
    method Release() returns (e: Event)
      requires Valid() && pending == None && stalled
      modifies this`filled, this`pending, this`stalled, this`told, this`raised
      ensures Valid() && told == old(told) + Told(e) && raised == old(raised) + Raised(e) && !stalled
    {
      hide AllBytes, AllMessages, MessagesOf, Bad, AllGood, StreamOf, Allowed, Join, Bytes;
      stalled := false;
      e := Begin();
    }

    /** `feed`: at most one message, after as many reads as `budget` looks at the clock allow. No call is idle:
        it reads, answers, or finds the port or the second core to wait for. */
    method Feed(budget: nat) returns (e: Event)
      requires Valid()
      modifies this, port`pos, port`arrived, port`empty, port`quiet, frame
      ensures Valid() && told == old(told) + Told(e) && raised == old(raised) + Raised(e)
      ensures dropped >= old(dropped) && Progress() > old(Progress())
    {
      hide AllBytes, AllMessages, MessagesOf, Bad, AllGood, StreamOf, Allowed, Join, Bytes;
      e := Nothing;
      if pending.Some? || stalled {
        e := Advance();
        if e != Nothing || stalled {
          return;
        }
      }
      var waiting := port.InWaiting();
      if waiting == 0 && filled == 0 && skip == 0 {
        return Nothing;
      }
      e := ReadOn(budget);
    }

    /** The loop of `feed`: reads until a frame is whole or the budget is used up. */
    method ReadOn(budget: nat) returns (e: Event)
      requires Valid() && !stalled
      modifies this, port`pos, port`arrived, port`empty, port`quiet, frame
      ensures Valid() && told == old(told) + Told(e) && raised == old(raised) + Raised(e)
      ensures dropped == old(dropped) && Progress() > old(Progress())
    {
      hide AllBytes, AllMessages, MessagesOf, Bad, AllGood, StreamOf, Allowed, Join, Bytes;
      e := Nothing;
      var left: int := budget;
      while true
        invariant Valid() && !stalled && told == old(told) && dropped == old(dropped) && raised == old(raised)
                  && waits == old(waits)
        invariant old(port.pos) <= port.pos && old(port.empty) <= port.empty && old(port.quiet) <= port.quiet
        invariant 0 <= left <= budget && (left < budget ==> Progress() > old(Progress()))
        decreases left
      {
        var available := port.InWaiting();
        if available > 0 {
          var complete := Consume(available);
          if complete {
            e := Finish();
            return;
          }
        }
        if left == 0 {
          return Nothing;
        }
        left := left - 1;
      }
    }
  }

  lemma AllMessagesAppend(z: Codec, frames: seq<Frame>, f: Frame)
    ensures AllMessages(z, frames + [f]) == AllMessages(z, frames) + MessagesOf(z, f)
  {
  }

  /** The board makes nothing of a frame that it throws away. */
  lemma Silent(z: Codec, f: Frame)
    ensures !Allowed(f.kind, |f.payload|) ==> MessagesOf(z, f) == []
  {
  }

  lemma AllowedFits(kind: byte, n: int)
    ensures n >= 0 && Allowed(kind, n) ==> 0 < n <= GLYPH_PAYLOAD
  {
  }

  /** Reading on only makes the next frame longer. */
  lemma Grown(frames: seq<Frame>, partial: seq<byte>, data: seq<byte>, pos: nat, got: nat)
    requires forall i :: 0 <= i < |frames| ==> |frames[i].payload| < 65536
    requires pos + got <= |data| && data[..pos] == AllBytes(frames) + partial
    ensures data[..pos + got] == AllBytes(frames) + (partial + data[pos..pos + got])
  {
  }

  // ---- The whole stream ----

  /** What the host writes: one of its messages, or a frame of a type this board does not know. */
  datatype Item = Own(message: Message) | Foreign(frame: Frame)

  ghost predicate Sendable(z: Codec, i: Item) {
    match i
    case Own(m) => Encode(z, m).Some? && |Encode(z, m).value.payload| < 65536 && FewKeys(m)
    case Foreign(f) => !Known(f.kind) && |f.payload| < 65536
  }

  ghost function FrameFor(z: Codec, i: Item): (f: Frame)
    requires Sendable(z, i)
    ensures |f.payload| < 65536
  {
    match i
    case Own(m) => Encode(z, m).value
    case Foreign(f) => f
  }

  ghost predicate AllSendable(z: Codec, items: seq<Item>) {
    forall i :: 0 <= i < |items| ==> Sendable(z, items[i])
  }

  ghost function FramesFor(z: Codec, items: seq<Item>): (r: seq<Frame>)
    requires AllSendable(z, items)
    ensures |r| == |items| && forall i :: 0 <= i < |r| ==> |r[i].payload| < 65536
  {
    seq(|items|, i requires 0 <= i < |items| => FrameFor(z, items[i]))
  }

  function Messages(items: seq<Item>): seq<Message> {
    if items == [] then []
    else Messages(items[..|items| - 1]) + (match items[|items| - 1] case Own(m) => [m] case Foreign(_) => [])
  }

  /** The board makes of the host's frames exactly the host's messages. */
  lemma {:induction false} FramesSayMessages(z: Codec, items: seq<Item>)
    requires Inverse(z) && AllSendable(z, items)
    ensures AllMessages(z, FramesFor(z, items)) == Messages(items)
  {
    hide Inverse, MessagesOf;
    if items != [] {
      var n := |items| - 1;
      FramesSayMessages(z, items[..n]);
      assert FramesFor(z, items)[..n] == FramesFor(z, items[..n]);
      match items[n]
      case Own(m) => DecodeEncode(z, m);
      case Foreign(f) => Silent(z, f);
    }
  }

  lemma {:induction false} MessagesGrow(items: seq<Item>, n: nat)
    requires n <= |items|
    ensures Messages(items[..n]) <= Messages(items)
  {
    if n < |items| {
      MessagesGrow(items[..|items| - 1], n);
      assert items[..|items| - 1][..n] == items[..n];
    } else {
      assert items[..n] == items;
    }
  }

  /** The bytes are not yet one whole frame. */
  ghost predicate Unfinished(b: seq<byte>) {
    |b| >= HEADER ==> |b| < HEADER + Declared(b)
  }

  /** A byte stream is cut into frames in one way: frames and an unfinished rest read from its front are
      its first frames. */
  lemma {:induction false} CutInOneWay(a: seq<Frame>, partial: seq<byte>, b: seq<Frame>)
    requires (forall i :: 0 <= i < |a| ==> |a[i].payload| < 65536) && forall i :: 0 <= i < |b| ==>
               |b[i].payload| < 65536
    requires AllBytes(a) + partial <= AllBytes(b)
    ensures a <= b && (AllBytes(a) + partial == AllBytes(b) && Unfinished(partial) ==> a == b)
  {
    hide Bytes, Join;
    if a == [] {
      assert AllBytes(a) + partial == partial;
      if b != [] && partial == AllBytes(b) {
        HeaderSays(b[0], AllBytes(b[1..]));
      }
      return;
    }
    var rest := AllBytes(a[1..]) + partial;
    assert AllBytes(a) + partial == Bytes(a[0]) + rest;
    assert b != [];
    HeaderSays(a[0], rest);
    HeaderSays(b[0], AllBytes(b[1..]));
    SameHead(a[0], rest, b[0], AllBytes(b[1..]));
    CutInOneWay(a[1..], partial, b[1..]);
    assert a == [a[0]] + a[1..] && b == [b[0]] + b[1..];
  }

  lemma HeaderSays(f: Frame, rest: seq<byte>)
    requires |f.payload| < 65536
    ensures var b := Bytes(f) + rest; |b| >= HEADER && b[0] == f.kind && Declared(b) == |f.payload|
  {
  }

  lemma SameHead(f: Frame, x: seq<byte>, g: Frame, y: seq<byte>)
    requires |f.payload| < 65536 && |g.payload| < 65536 && Bytes(f) + x <= Bytes(g) + y
    ensures f == g && x <= y
  {
    HeaderSays(f, x);
    HeaderSays(g, y);
    var n := |Bytes(f)|;
    assert |Bytes(g)| == n;
    assert Bytes(f) == (Bytes(f) + x)[..n] == (Bytes(g) + y)[..n] == Bytes(g);
    assert f.payload == Bytes(f)[HEADER..] && g.payload == Bytes(g)[HEADER..];
    assert x == (Bytes(f) + x)[n..] && y == (Bytes(g) + y)[n..];
  }

  /** Nothing is left to read, and no frame is under way. */
  predicate AllRead(r: CustomGlyphReader)
    reads r, r.port
  {
    r.port.pos == |r.port.data| && r.pending.None? && !r.stalled
  }

  /** Reading undoes writing: in whatever pieces the bytes arrive and whatever the budgets, on one core or two, the
      reader returns the host's messages in order, all of them once it has read everything. Only an inflate on the
      second core can be late, and every call of `feed` is accounted for. */
  method ReadAll(z: Codec, hasCore1: bool, items: seq<Item>, data: seq<byte>, budgets: seq<nat>)
      returns (out: seq<Message>, r: CustomGlyphReader)
    requires Inverse(z) && AllSendable(z, items) && data == AllBytes(FramesFor(z, items))
    ensures fresh(r) && r.Valid() && r.z == z && r.hasCore1 == hasCore1 && r.port.data == data && out == r.told
    ensures (!hasCore1 ==> r.dropped == r.waits == 0) && r.dropped == r.overdue
    ensures r.dropped == 0 ==> out <= Messages(items) && (AllRead(r) ==> out == Messages(items))
    ensures |budgets| <= r.Progress() && r.raised == 0
  {
    hide Inverse, AllSendable, FramesFor, AllBytes, Messages;
    var port := new Port(data);
    r := new CustomGlyphReader(z, hasCore1, port);
    out := [];
    for i := 0 to |budgets|
      invariant r.Valid() && out == r.told && fresh(r) && fresh(port) && fresh(r.frame) && i <= r.Progress()
    {
      var e := r.Feed(budgets[i]);
      if e.Got? {
        out := out + [e.message];
      }
    }
    ToldSoFar(r, items);
  }

  /** What a reader with this much behind it has returned. */
  lemma ToldSoFar(r: CustomGlyphReader, items: seq<Item>)
    requires r.Valid() && Inverse(r.z) && AllSendable(r.z, items)
    requires r.port.data == AllBytes(FramesFor(r.z, items))
    ensures r.dropped == 0 ==> r.told <= Messages(items)
    ensures r.dropped == 0 && AllRead(r) ==> r.told == Messages(items)
    ensures r.raised == 0 && r.dropped == r.overdue
  {
    hide Inverse, AllSendable, FramesFor, AllBytes, Messages, AllMessages, MessagesOf, Unfinished,
         CustomGlyphReader.Valid;
    HasRead(r);
    var b := FramesFor(r.z, items);
    var n := |r.frames|;
    CutInOneWay(r.frames, r.partial, b);
    FramesForPrefix(r.z, items, n);
    FramesSayMessages(r.z, items[..n]);
    MessagesGrow(items, n);
    assert r.frames == b[..n];
    HostIsGood(r.z, items);
    if n == |items| {
      assert items[..n] == items;
    }
  }

  /** No frame of the host is an error to the board. */
  lemma HostIsGood(z: Codec, items: seq<Item>)
    requires Inverse(z) && AllSendable(z, items)
    ensures AllGood(z, FramesFor(z, items))
  {
    hide Inverse, MessagesOf;
    forall i | 0 <= i < |items|
      ensures !Bad(z, FrameFor(z, items[i]))
    {
      assert Sendable(z, items[i]);
      if items[i].Own? {
        DecodeEncode(z, items[i].message);
      }
    }
  }

  /** What `Valid` says of the bytes read and of the messages they hold. */
  lemma HasRead(r: CustomGlyphReader)
    requires r.Valid()
    ensures forall i :: 0 <= i < |r.frames| ==> |r.frames[i].payload| < 65536
    ensures AllBytes(r.frames) + r.partial <= r.port.data && Unfinished(r.partial)
    ensures r.port.pos == |r.port.data| ==> AllBytes(r.frames) + r.partial == r.port.data
    ensures r.dropped == 0 ==> r.told <= AllMessages(r.z, r.frames)
    ensures (AllGood(r.z, r.frames) ==> r.raised == 0) && r.dropped == r.overdue
    ensures r.dropped == 0 && r.pending.None? && !r.stalled ==> r.told == AllMessages(r.z, r.frames)
  {
  }

  lemma FramesForPrefix(z: Codec, items: seq<Item>, n: nat)
    requires AllSendable(z, items) && n <= |items|
    ensures AllSendable(z, items[..n]) && FramesFor(z, items[..n]) == FramesFor(z, items)[..n]
  {
  }
}
