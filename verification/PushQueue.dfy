// firmware/app.py: the frames that wait for the panels, and the group of them on the wire.
module PushQueue {
  import opened Bits
  import opened Bus

  /** `list.remove`: the queue without a key. */
  function Without(q: seq<nat>, k: nat): seq<nat> {
    if q == [] then [] else if q[0] == k then q[1..] else [q[0]] + Without(q[1..], k)
  }

  lemma {:induction false} WithoutKeeps(q: seq<nat>, k: nat)
    requires Distinct(q)
    ensures Distinct(Without(q, k)) && forall j :: j in Without(q, k) <==> j in q && j != k
  {
    if q != [] && q[0] != k {
      WithoutKeeps(q[1..], k);
      var r := Without(q[1..], k);
      assert forall j :: j in q[1..] ==> j in q;
      assert q[0] !in q[1..];
      assert forall j :: j in q ==> j == q[0] || j in q[1..];
    } else if q != [] {
      assert forall j :: j in q ==> j == q[0] || j in q[1..];
    }
  }

  /** The others close up in the order they had. */
  lemma {:induction false} WithoutCloses(a: seq<nat>, k: nat, b: seq<nat>)
    requires k !in a
    ensures Without(a + [k] + b, k) == a + b
  {
    if a == [] {
      assert a + [k] + b == [k] + b;
    } else {
      assert (a + [k] + b)[1..] == a[1..] + [k] + b;
      WithoutCloses(a[1..], k, b);
    }
  }

  lemma DistinctJoin(a: seq<nat>, b: seq<nat>)
    requires Distinct(a) && Distinct(b) && forall k :: k in a ==> k !in b
    ensures Distinct(a + b)
  {
    assert forall i :: |a| <= i < |a + b| ==> (a + b)[i] == b[i - |a|];
    assert forall i :: 0 <= i < |b| ==> b[i] in b;
  }

  lemma CutInTwo(q: seq<nat>, count: nat)
    requires Distinct(q) && count <= |q|
    ensures Distinct(q[..count]) && Distinct(q[count..])
    ensures forall k :: k in q <==> k in q[..count] || k in q[count..]
    ensures forall k :: k in q[..count] ==> k !in q[count..]
  {
    assert q == q[..count] + q[count..];
  }

  lemma OnlyKey(q: seq<nat>)
    requires Distinct(q) && 0 in q && forall k :: k in q ==> k < 1
    ensures q == [0]
  {
    assert q[0] in q && q[|q| - 1] in q;
  }

  predicate Ascending(s: seq<nat>) {
    forall i, j :: 0 <= i < j < |s| ==> s[i] < s[j]
  }

  /** What became of one key's frames, by their number among all frames ever submitted: the one in the
      queue, the one on the wire, those fully sent, and the newest that no Begin batch withdrew. */
  datatype Track = Track(waiting: Option<nat>, onWire: Option<nat>, sent: seq<nat>, newest: Option<nat>)

  /** The newest of a key's frames that still exists. */
  function Standing(t: Track): Option<nat> {
    if t.waiting.Some? then t.waiting
    else if t.onWire.Some? then t.onWire
    else if t.sent != [] then Some(t.sent[|t.sent| - 1])
    else None
  }

  /** No newest frame is lost, and a key's frames go out in the order they were submitted. */
  predicate InOrder(t: Track) {
    && Ascending(t.sent)
    && (t.onWire.Some? && t.sent != [] ==> t.sent[|t.sent| - 1] < t.onWire.value)
    && (t.waiting.Some? && t.onWire.Some? ==> t.onWire.value < t.waiting.value)
    && (t.waiting.Some? && t.sent != [] ==> t.sent[|t.sent| - 1] < t.waiting.value)
    && (t.newest.Some? ==> Standing(t) == t.newest)
  }

  /** The keys of a group that failed and have no newer frame in the queue. */
  function Unreplaced<F>(keys: seq<nat>, queued: seq<Option<F>>): seq<nat>
    requires forall i :: 0 <= i < |keys| ==> keys[i] < |queued|
  {
    if keys == [] then []
    else
      var rest := Unreplaced(keys[..|keys| - 1], queued);
      if queued[keys[|keys| - 1]].None? then rest + [keys[|keys| - 1]] else rest
  }

  lemma {:induction false} UnreplacedKeys<F>(keys: seq<nat>, queued: seq<Option<F>>)
    requires (forall i :: 0 <= i < |keys| ==> keys[i] < |queued|) && Distinct(keys)
    ensures var r := Unreplaced(keys, queued);
            Distinct(r) && forall k :: k in r <==> k in keys && queued[k].None?
  {
    if keys != [] {
      UnreplacedKeys(keys[..|keys| - 1], queued);
      assert keys == keys[..|keys| - 1] + [keys[|keys| - 1]];
    }
  }

  /** What `r` has stands in the same order in `s`. */
  ghost predicate SameOrder(r: seq<nat>, s: seq<nat>) {
    forall i, j :: 0 <= i < j < |r| ==> Precedes(s, r[i], r[j])
  }

  ghost predicate Precedes(s: seq<nat>, x: nat, y: nat) {
    exists i, j :: 0 <= i < j < |s| && s[i] == x && s[j] == y
  }

  /** They keep the order they had in the group. */
  lemma {:induction false} UnreplacedInOrder<F>(keys: seq<nat>, queued: seq<Option<F>>)
    requires (forall i :: 0 <= i < |keys| ==> keys[i] < |queued|) && Distinct(keys)
    ensures SameOrder(Unreplaced(keys, queued), keys)
  {
    if keys != [] {
      var n := |keys| - 1;
      var rest, r := Unreplaced(keys[..n], queued), Unreplaced(keys, queued);
      UnreplacedInOrder(keys[..n], queued);
      UnreplacedKeys(keys[..n], queued);
      forall i, j | 0 <= i < j < |r| ensures Precedes(keys, r[i], r[j]) {
        if j < |rest| {
          assert Precedes(keys[..n], rest[i], rest[j]);
          var a, b :| 0 <= a < b < n && keys[..n][a] == rest[i] && keys[..n][b] == rest[j];
          assert keys[a] == r[i] && keys[b] == r[j];
        } else {
          assert r[i] in keys[..n];
          var a :| 0 <= a < n && keys[..n][a] == r[i];
          assert keys[a] == r[i] && keys[n] == r[j];
        }
      }
    }
  }

  /** `after` is the queued frames `before` with those of a failed group put back where none is. */
  ghost predicate PutBack<F(!new)>(before: seq<Option<F>>, keys: seq<nat>, frames: seq<F>, after: seq<Option<F>>)
    requires |keys| == |frames| && forall i :: 0 <= i < |keys| ==> keys[i] < |before|
  {
    && |after| == |before|
    && (forall k :: 0 <= k < |before| ==> after[k].Some? == (before[k].Some? || k in keys))
    && (forall k :: 0 <= k < |before| && (k !in keys || before[k].Some?) ==> after[k] == before[k])
    && (forall i :: 0 <= i < |keys| && before[keys[i]].None? ==> after[keys[i]] == Some(frames[i]))
  }

  lemma PutBackNone<F(!new)>(before: seq<Option<F>>)
    ensures PutBack(before, [], [], before) && Unreplaced([], before) == []
  {
  }

  lemma PutBackOne<F(!new)>(before: seq<Option<F>>, keys: seq<nat>, frames: seq<F>, now: seq<Option<F>>, k: nat, f: F)
    requires |keys| == |frames| && (forall i :: 0 <= i < |keys| ==> keys[i] < |before|) && k < |before| && k !in keys
    requires PutBack(before, keys, frames, now)
    ensures now[k] == before[k]
    ensures PutBack(before, keys + [k], frames + [f], if now[k].None? then now[k := Some(f)] else now)
    ensures Unreplaced(keys + [k], before) == Unreplaced(keys, before) + if now[k].None? then [k] else []
  {
  }

  lemma RequeuedKeepsOrder(t: Track)
    requires InOrder(t)
    ensures InOrder(Requeued(t))
  {
  }

  class Pushes<F(==,!new)> {
    const n: nat
    const lines: Lines
    const bus: ParallelBus
    const panels: Panels<F>
    var queue: seq<nat>
    var queued: seq<Option<F>>
    var active: seq<nat>
    var activeFrames: seq<F>
    var resyncs: nat
    // Every frame ever submitted, and its key.
    ghost var history: seq<(nat, F)>
    ghost var tracks: seq<Track>

    constructor (n: nat)
      ensures this.n == n && Valid() && history == [] && active == [] && fresh(lines) && fresh(bus) && fresh(panels)
    {
      this.n := n;
      var l := new Lines(n);
      var b := new ParallelBus(l);
      panels := new Panels(n, l, b);
      lines, bus := l, b;
      queue, queued, active, activeFrames, resyncs := [], seq(n, _ => None), [], [], 0;
      history, tracks := [], seq(n, _ => Track(None, None, [], None));
    }

    ghost predicate Wired() {
      panels.bus == bus && panels.lines == lines && bus.lines == lines && panels.n == n
    }

    /** A key is in the queue once, exactly when it has a queued frame. */
    ghost predicate QueueOk()
      reads this
    {
      && |queued| == n && Distinct(queue)
      && (forall k :: k in queue ==> k < n)
      && (forall k :: 0 <= k < n ==> (k in queue <==> queued[k].Some?))
    }

    /** The group on the wire is the bus's, and its panels alone are busy with its frames. */
    ghost predicate WireOk()
      reads this, bus, lines, panels
    {
      && Wired() && bus.Valid() && panels.Valid() && lines.AllSafe()
      && bus.group == active && |active| == |activeFrames| && |active| <= MAX_GROUP && Distinct(active)
      && lines.low == Members(active) && (forall i :: 0 <= i < |active| ==> active[i] < n)
      && (forall i :: 0 <= i < |active| ==> panels.frame[active[i]] == Some(activeFrames[i]))
    }

    ghost predicate TrackOk(k: nat)
      reads this
    {
      |queued| == |tracks| == n && |active| == |activeFrames| && k < n &&
      var t := tracks[k];
      && InOrder(t) && t.waiting.Some? == queued[k].Some? && t.onWire.Some? == (k in active)
      && (forall i :: 0 <= i < |t.sent| ==> t.sent[i] < |history| && history[t.sent[i]].0 == k)
      && (t.waiting.Some? ==> t.waiting.value < |history| && history[t.waiting.value] == (k, queued[k].value))
      && (forall i :: 0 <= i < |active| && active[i] == k && t.onWire.Some? ==>
           t.onWire.value < |history| && history[t.onWire.value] == (k, activeFrames[i]))
    }

    ghost predicate Tracked()
      reads this
    {
      |tracks| == n && forall k :: 0 <= k < n ==> TrackOk(k)
    }

    ghost predicate Valid()
      reads this, bus, lines, panels
    {
      |queued| == n && QueueOk() && WireOk() && Tracked()
    }

    /** A push of this frame is queued or on the wire. */
    ghost predicate Waits(f: F)
      reads this
    {
      Some(f) in queued || f in activeFrames
    }

    lemma WaitingIsTracked(f: F)
      requires Valid()
      ensures Waits(f) <==> Among(tracks, history, f)
    {
      hide InOrder, ParallelBus.Valid, Panels.Valid, Lines.AllSafe;
      if Some(f) in queued {
        var k :| 0 <= k < n && queued[k] == Some(f);
        assert TrackOk(k) && IsOne(tracks[k], history, f);
      } else if f in activeFrames {
        var i :| 0 <= i < |activeFrames| && activeFrames[i] == f;
        assert TrackOk(active[i]) && active[i] in active && IsOne(tracks[active[i]], history, f);
      }
      if Among(tracks, history, f) {
        var k :| 0 <= k < |tracks| && IsOne(tracks[k], history, f);
        assert TrackOk(k);
        if k in active {
          var i :| 0 <= i < |active| && active[i] == k;
          assert tracks[k].onWire.Some? ==> activeFrames[i] in activeFrames;
        }
      }
    }

    /** Where the key's frame waits, and the key itself. */
    lemma WaitsForWire(k: nat)
      requires Valid() && k < n
      ensures |tracks| == |queued| == n && (queued[k].Some? <==> tracks[k].waiting.Some?)
      ensures queued[k].Some? ==> queue != [] && (n == 1 ==> queue == [k])
    {
      hide InOrder, WireOk;
      assert TrackOk(k);
      if queued[k].Some? && n == 1 {
        OnlyKey(queue);
      }
    }

    /** `_submit_push`: the frame takes the place of the key's frame in the queue, else goes last. */
    method Submit(k: nat, f: F)
      requires Valid() && k < n
      modifies this`queue, this`queued, this`history, this`tracks
      ensures Valid() && queued == old(queued)[k := Some(f)]
      ensures queue == if old(queued[k]).None? then old(queue) + [k] else old(queue)
      ensures forall g :: Waits(g) && g != f ==> old(Waits(g))
      ensures history == old(history) + [(k, f)]
      ensures tracks == old(tracks)[k :=
                old(tracks[k]).(waiting := Some(|old(history)|), newest := Some(|old(history)|))]
    {
      hide ParallelBus.Valid, Panels.Valid;
      if queued[k].None? {
        queue := queue + [k];
        assert forall j :: j in queue <==> j in old(queue) || j == k;
      }
      queued := queued[k := Some(f)];
      tracks := tracks[k := tracks[k].(waiting := Some(|history|), newest := Some(|history|))];
      history := history + [(k, f)];
      assert QueueOk();
      assert WireOk();
      forall g | Waits(g) && g != f
        ensures old(Waits(g))
      {
        if Some(g) in queued {
          var j :| 0 <= j < n && queued[j] == Some(g);
          assert old(queued[j]) == Some(g);
        }
      }
      forall j | 0 <= j < n ensures TrackOk(j) {
        assert old(TrackOk(j));
      }
    }

    /** What `_begin_batch` does to a key with a frame in the queue: the frame leaves it. */
    method Withdraw(k: nat)
      requires Valid() && k < n && queued[k].Some?
      modifies this`queue, this`queued, this`tracks
      ensures Valid() && queued == old(queued)[k := None] && queue == Without(old(queue), k)
      ensures tracks == old(tracks)[k := old(tracks[k]).(waiting := None, newest := None)]
    {
      hide ParallelBus.Valid, Panels.Valid;
      WithoutKeeps(queue, k);
      queue := Without(queue, k);
      queued := queued[k := None];
      tracks := tracks[k := tracks[k].(waiting := None, newest := None)];
      assert QueueOk();
      assert WireOk();
      forall j | 0 <= j < n ensures TrackOk(j) {
        assert old(TrackOk(j));
      }
    }

    /** The group has ended, but its panels still listen. */
    ghost predicate Ended()
      reads this, bus, lines, panels
    {
      && Wired() && bus.Valid() && panels.Valid() && lines.AllSafe() && bus.group == []
      && |active| == |activeFrames| && Distinct(active) && (forall i :: 0 <= i < |active| ==> active[i] < n)
    }

    /** The loop of `_requeue_active_group`: every panel of the group is aborted, and its frame waits again
        unless a newer one does. */
    method AbortGroup() returns (requeue: seq<nat>)
      requires Ended() && |queued| == n && lines.low == Members(active)
      modifies this`queued, panels`frame, panels`busy, panels`needsWindow, lines`low
      ensures Ended() && lines.low == {} && requeue == Unreplaced(active, old(queued))
      ensures PutBack(old(queued), active, activeFrames, queued)
    {
      hide Lines.AllSafe, ParallelBus.Valid, Panels.Valid, PutBack, Unreplaced;
      requeue := [];
      PutBackNone(queued);
      assert active[..0] == [] && activeFrames[..0] == [];
      for i := 0 to |active|
        invariant Ended() && lines.low == Members(active[i..])
        invariant |queued| == n && requeue == Unreplaced(active[..i], old(queued))
        invariant PutBack(old(queued), active[..i], activeFrames[..i], queued)
      {
        var k := active[i];
        IdleBusValid(bus);
        panels.AbortPush(k);
        IdleBusValid(bus);
        assert active[i..] == [k] + active[i + 1..];
        assert k !in active[..i] && active[..i + 1] == active[..i] + [k];
        assert activeFrames[..i + 1] == activeFrames[..i] + [activeFrames[i]];
        PutBackOne(old(queued), active[..i], activeFrames[..i], queued, k, activeFrames[i]);
        if queued[k].None? {
          queued := queued[k := Some(activeFrames[i])];
          requeue := requeue + [k];
        }
      }
      assert active[..|active|] == active && activeFrames[..|active|] == activeFrames;
    }

    /** `_requeue_active_group`: the frames of the failed group go to the front, in order, but for those
        that a newer frame replaced. */
    method RequeueActiveGroup()
      requires Ended() && QueueOk() && Tracked() && lines.low == Members(active) && |active| <= MAX_GROUP
      modifies this`queued, this`queue, this`active, this`activeFrames, this`resyncs, this`tracks
      modifies panels`frame, panels`busy, panels`needsWindow, lines`low
      ensures Valid() && active == [] && queue == Unreplaced(old(active), old(queued)) + old(queue)
      ensures PutBack(old(queued), old(active), old(activeFrames), queued)
      ensures resyncs == old(resyncs) + 1 && forall k :: 0 <= k < n ==> tracks[k] == Requeued(old(tracks[k]))
    {
      hide ParallelBus.Valid, Panels.Valid, Lines.AllSafe, Unreplaced, InOrder, AtFirst;
      UnreplacedKeys(active, queued);
      var requeue := AbortGroup();
      DistinctJoin(requeue, queue);
      queue := requeue + queue;
      assert forall k :: k in queue <==> k in requeue || k in old(queue);
      assert QueueOk();
      tracks := seq(|tracks|, k requires 0 <= k < |tracks| reads this => Requeued(tracks[k]));
      active, activeFrames := [], [];
      resyncs := resyncs + 1;
      forall k | 0 <= k < n
        ensures TrackOk(k)
      {
        assert old(TrackOk(k));
        assert InOrder(old(tracks[k]));
        RequeuedKeepsOrder(old(tracks[k]));
      }
    }

    /** The hardware half of `_start_group`: every window first, then the machines with every CS high, then
        every CS low, then the frames. */
    method DriveGroup(keys: seq<nat>, frames: seq<F>)
      requires Wired() && panels.Quiet() && Distinct(keys) && 0 < |keys| <= MAX_GROUP && |frames| == |keys|
      requires forall i :: 0 <= i < |keys| ==> keys[i] < n
      modifies panels, bus, lines
      ensures bus.Valid() && panels.Valid() && lines.AllSafe() && bus.group == keys && lines.low == Members(keys)
      ensures forall i :: 0 <= i < |keys| ==> panels.frame[keys[i]] == Some(frames[i])
    {
      hide ParallelBus.Valid, Lines.AllSafe;
      for i := 0 to |keys|
        invariant panels.Quiet() && forall j :: 0 <= j < i ==> keys[j] !in lines.MidFrame()
      {
        panels.PreparePush(keys[i]);
      }
      bus.PrepareGroup(keys);
      for i := 0 to |keys|
        invariant panels.Valid() && bus.Valid() && lines.AllSafe() && bus.group == [] && bus.leader
                  && bus.followers == Members(keys)
        invariant lines.low == Members(keys[..i]) && (i > 0 ==> lines.dcHigh)
        invariant forall j :: 0 <= j < |keys| ==> keys[j] !in lines.MidFrame()
        invariant forall j :: 0 <= j < i ==> panels.frame[keys[j]] == Some(frames[j])
      {
        IdleBusValid(bus);
        assert keys[i] !in keys[..i];
        panels.BeginPush(keys[i], frames[i]);
        assert keys[..i + 1] == keys[..i] + [keys[i]];
        IdleBusValid(bus);
      }
      assert keys[..|keys|] == keys;
      bus.StartGroup(keys);
      assert panels.Valid();
    }

    /** The first half of `_start_group`: the oldest frames leave the queue. */
    method TakeGroup() returns (keys: seq<nat>, frames: seq<F>)
      requires QueueOk() && queue != []
      modifies this`queue, this`queued
      ensures QueueOk() && Distinct(keys) && keys == old(queue)[..Batch(|old(queue)|)] && queue == old(queue)[|keys|..]
      ensures |frames| == |keys| && forall i :: 0 <= i < |keys| ==>
                keys[i] < n && Some(frames[i]) == old(queued)[keys[i]]
      ensures forall k :: 0 <= k < n ==> queued[k] == if k in keys then None else old(queued[k])
    {
      var count := Batch(|queue|);
      CutInTwo(queue, count);
      keys := queue[..count];
      queue := queue[count..];
      assert forall i :: 0 <= i < |keys| ==> keys[i] in keys;
      frames := seq(|keys|, i requires 0 <= i < |keys| && keys[i] < |queued|
          && queued[keys[i]].Some? reads this => queued[keys[i]].value);
      ClearQueued(keys);
    }

    method ClearQueued(keys: seq<nat>)
      requires |queued| == n && forall k :: k in keys ==> k < n
      modifies this`queued
      ensures |queued| == n && forall k :: 0 <= k < n ==> queued[k] == if k in keys then None else old(queued[k])
    {
      for i := 0 to |keys|
        invariant |queued| == n && forall k :: 0 <= k < n ==>
                    queued[k] == if k in keys[..i] then None else old(queued[k])
      {
        assert keys[i] in keys;
        queued := queued[keys[i] := None];
        assert keys[..i + 1] == keys[..i] + [keys[i]];
      }
      assert keys[..|keys|] == keys;
    }

    /** `_start_group`: the oldest queued pushes that fit one group go on the wire together. */
    method StartGroup()
      requires Valid() && active == [] && queue != []
      modifies this, panels, bus, lines
      ensures Valid() && history == old(history) && resyncs == old(resyncs)
      ensures active == old(queue)[..Batch(|old(queue)|)] && queue == old(queue)[|active|..]
      ensures |active| == if |old(queue)| < 3 then |old(queue)| else 3
      ensures forall k :: 0 <= k < n ==> queued[k] == if k in active then None else old(queued[k])
      ensures forall i :: 0 <= i < |active| ==> Some(activeFrames[i]) == old(queued)[active[i]]
      ensures forall k :: 0 <= k < n ==> tracks[k] == if k in active then Taken(old(tracks[k])) else old(tracks[k])
    {
      hide ParallelBus.Valid, Panels.Valid, Lines.AllSafe, InOrder;
      assert panels.Quiet();
      var keys, frames := TakeGroup();
      DriveGroup(keys, frames);
      active, activeFrames := keys, frames;
      tracks := seq(|tracks|, k requires 0 <= k < |tracks| reads this => if k in active then Taken(tracks[k])
          else tracks[k]);
      forall k | 0 <= k < n
        ensures TrackOk(k)
      {
        assert old(TrackOk(k));
        assert InOrder(old(tracks[k]));
        if k in keys {
          TakenKeepsOrder(old(tracks[k]));
        }
      }
    }

    /** The panels of a group that is fully sent: each raises its CS. */
    method EndGroup()
      requires Ended() && lines.low == Members(active) && forall k :: k in active ==> k !in lines.MidFrame()
      modifies panels`frame, panels`busy, lines`low, bus, lines`log
      ensures Ended() && lines.low == {}
    {
      for i := 0 to |active|
        invariant Ended() && lines.low == Members(active[i..]) && forall k :: k in active ==> k !in lines.MidFrame()
      {
        var idle := panels.Poll(active[i]);
        assert active[i..] == [active[i]] + active[i + 1..];
      }
    }

    /** A group that is fully sent: its frames are the newest that their panels got. */
    method FinishGroup()
      requires Ended() && QueueOk() && Tracked() && lines.low == Members(active) && |active| <= MAX_GROUP
      requires forall k :: k in active ==> k !in lines.MidFrame()
      modifies this`active, this`activeFrames, this`tracks, panels`frame, panels`busy, lines`low, bus, lines`log
      ensures Valid() && active == [] && forall k :: 0 <= k < n ==> tracks[k] == Finished(old(tracks[k]))
    {
      hide Lines.AllSafe, InOrder, ParallelBus.Valid, Panels.Valid;
      EndGroup();
      active, activeFrames := [], [];
      tracks := seq(|tracks|, k requires 0 <= k < |tracks| reads this => Finished(tracks[k]));
      forall k | 0 <= k < n
        ensures TrackOk(k)
      {
        assert old(TrackOk(k));
        assert InOrder(old(tracks[k]));
        FinishedKeepsOrder(old(tracks[k]));
      }
    }

    /** `_group_done`: true when no group is on the wire any more. A group that desynced waits again. */
    method GroupDone(look: Look) returns (done: bool)
      requires Valid() && active != []
      modifies this, panels, bus, lines
      ensures Valid() && history == old(history) && done == Ends(look, old(bus.cleared))
      ensures !done ==> active == old(active) && activeFrames == old(activeFrames) && queue == old(queue)
                        && queued == old(queued) && tracks == old(tracks) && resyncs == old(resyncs)
      ensures done ==> active == []
      ensures done && EndsWell(look) ==> queue == old(queue) && queued == old(queued) && resyncs == old(resyncs)
                                         && forall k :: 0 <= k < n ==> tracks[k] == Finished(old(tracks[k]))
      ensures done && !EndsWell(look) ==> queue == Unreplaced(old(active), old(queued)) + old(queue)
                                          && PutBack(old(queued), old(active), old(activeFrames), queued)
                                          && resyncs == old(resyncs) + 1
                                          && forall k :: 0 <= k < n ==> tracks[k] == Requeued(old(tracks[k]))
      ensures forall k :: 0 <= k < n && old(queued[k]).None? ==>
                (queued[k].Some? <==> k in old(active) && Ends(look, old(bus.cleared)) && !EndsWell(look))
    {
      hide Unreplaced, Lines.AllSafe, InOrder, AtFirst, Writing;
      done := bus.Done(look);
      assert panels.Valid();
      if !done {
        assert Tracked();
        return;
      }
      if bus.desynced {
        assert Tracked();
        RequeueActiveGroup();
        return;
      }
      FinishGroup();
    }

    /** `_service_pushes`, with what `done` finds each time that the loop looks: it ends the group on the
        wire when that is done, and starts the next. The bus never stays free while a frame waits. */
    method ServicePushes(looks: seq<Look>)
      requires Valid() && looks != []
      modifies this, panels, bus, lines
      ensures Valid() && history == old(history) && |tracks| == n && resyncs >= old(resyncs)
      ensures active != [] || queue == []
      ensures forall k :: 0 <= k < n ==> Serviced(old(tracks[k]), tracks[k])
      ensures old(active) != [] && Ends(looks[0], old(bus.cleared)) ==>
                if EndsWell(looks[0]) then forall k :: 0 <= k < n && k in old(active) ==>
                    Finished(old(tracks[k])).sent <= tracks[k].sent
                else resyncs > old(resyncs)
    {
      hide InOrder, QueueOk, WireOk, Unreplaced, PutBack, EndsWell, Ends;
      for i := 0 to |looks|
        invariant Valid() && history == old(history) && resyncs >= old(resyncs)
        invariant i == 0 ==>
                    tracks == old(tracks) && active == old(active) && bus.cleared == old(bus.cleared)
                        && resyncs == old(resyncs)
        invariant i > 0 ==> active != []
        invariant forall k :: 0 <= k < n ==> Serviced(old(tracks[k]), tracks[k])
        invariant i > 0 && old(active) != [] && Ends(looks[0], old(bus.cleared)) ==>
          if EndsWell(looks[0]) then forall k :: 0 <= k < n && k in old(active) ==>
              Finished(old(tracks[k])).sent <= tracks[k].sent
          else resyncs > old(resyncs)
      {
        if active != [] {
          var done := GroupDone(looks[i]);
          if !done {
            return;
          }
        }
        if queue == [] {
          return;
        }
        StartGroup();
      }
    }
  }

  /** What a desync does to one key's frames: the one on the wire waits again, unless one waits already. */
  function Requeued(t: Track): Track {
    if t.onWire.None? then t
    else if t.waiting.Some? then t.(onWire := None)
    else t.(onWire := None, waiting := t.onWire)
  }

  /** How many of the waiting frames one group takes. */
  function Batch(waiting: nat): nat {
    if waiting < MAX_GROUP then waiting else MAX_GROUP
  }

  /** What the start of a group does to the frames of its keys. */
  function Taken(t: Track): Track {
    t.(onWire := t.waiting, waiting := None)
  }

  /** What the end of a group does to the frames of its keys. */
  function Finished(t: Track): Track {
    if t.onWire.None? then t else t.(sent := t.sent + [t.onWire.value], onWire := None)
  }

  /** Service sends frames on. It makes none, and never forgets the newest. */
  predicate Serviced(before: Track, after: Track) {
    && after.newest == before.newest && before.sent <= after.sent
    && after.waiting in {None, before.waiting, before.onWire} && after.onWire in {None, before.waiting, before.onWire}
  }

  /** The frame is the key's waiting one, or its one on the wire. */
  predicate IsOne<F(==)>(t: Track, history: seq<(nat, F)>, f: F) {
    || (t.waiting.Some? && t.waiting.value < |history| && history[t.waiting.value].1 == f)
    || (t.onWire.Some? && t.onWire.value < |history| && history[t.onWire.value].1 == f)
  }

  predicate Among<F(==)>(tracks: seq<Track>, history: seq<(nat, F)>, f: F) {
    exists k :: 0 <= k < |tracks| && IsOne(tracks[k], history, f)
  }

  /** Service puts no frame on the way that was not on it before. */
  lemma ServicedAmong<F>(before: seq<Track>, after: seq<Track>, history: seq<(nat, F)>, f: F)
    requires |before| == |after| && forall k :: 0 <= k < |before| ==> Serviced(before[k], after[k])
    requires Among(after, history, f)
    ensures Among(before, history, f)
  {
    var k :| 0 <= k < |after| && IsOne(after[k], history, f);
    assert IsOne(before[k], history, f);
  }

  lemma TakenKeepsOrder(t: Track)
    requires InOrder(t) && t.waiting.Some? && t.onWire.None?
    ensures InOrder(Taken(t))
  {
  }

  lemma FinishedKeepsOrder(t: Track)
    requires InOrder(t)
    ensures InOrder(Finished(t))
  {
  }

  /** With no group, the bus's lines do not matter to it. */
  lemma IdleBusValid(bus: ParallelBus)
    ensures bus.group == [] ==>
              (bus.Valid() <==> (bus.leader || bus.followers == {}) && !(bus.leader && bus.single.Some?))
  {
  }
}
