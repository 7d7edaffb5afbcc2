// tools/usermod/glyphcore/glyphcore.c: the two cores and their shared variables, and the part of
// firmware/wire.py's reader that drives them. Each method named after a step is one access to shared memory,
// so a run of steps is any interleaving of the cores.
module Handshake {
  import opened Bits
  import opened Sizes

  const STREAM_CAP := 33024
  const GLYPH_KEYS := 7
  const STAGING_BUFFER := 2 * GLYPH_KEYS

  datatype JobState = Idle | Queued | Running | Done | Failed

  /** Where core 0 stands: between calls, or inside submit, poll, wait_for_idle or a flash call. */
  datatype Core0 =
    | Ready
    | Copying(job: Job, at: nat) | Copied(job: Job) | LengthSet(job: Job) | OutSet(job: Job) | CancelCleared(job: Job)
    | DoneSeen | ResultRead(length: int) | FailureSeen
    | Cancelling | GivenUp | Settled | Freeing
    | FlashBegun | Flashing

  datatype Core1 = Asleep | Woken | Inflating | Ended(ok: bool, length: int) | Reported(ok: bool)

  /** An inflate: for a key's glyph, or for a Store frame (no key), into a glyph buffer. */
  datatype Job = Job(stream: seq<byte>, key: Option<nat>, buffer: nat)

  datatype Collected = Collected(job: nat, pixels: Option<seq<byte>>)

  predicate Busy(s: JobState) {
    s == Queued || s == Running
  }

  /** The buffer of a key that its picture does not come from. */
  function Target(current: seq<nat>, key: Option<nat>): nat
    requires |current| == GLYPH_KEYS
  {
    if key.Some? && key.value < GLYPH_KEYS && current[key.value] <= 1 then 2 * key.value + 1 - current[key.value]
        else STAGING_BUFFER
  }

  datatype Move =
    | Core1Goes(junk: seq<byte>, ends: bool, sees: bool)
    | Submit(stream: seq<byte>, key: Option<nat>) | Poll | Cancel | Flash | Composed
    | Core0Goes(late: bool)

  // ---- The machine that the cores are to be ----

  /** All that can be told apart from outside. The stream, its length and the target of a job are one value here,
      and what it inflates to is known from its stream. */
  datatype Snap = Snap(core0: Core0, core1: Core1, jobState: JobState, cancelFlag: bool, jobResult: int,
                       flashBlocked: bool, pending: Option<Job>, composing: bool, hung: bool, buffers: seq<seq<byte>>,
                       current: seq<nat>, pictures: seq<Option<nat>>, shown: seq<seq<byte>>, accepted: seq<Job>,
                       collected: seq<Collected>)

  ghost const START :=
    Snap(Ready, Asleep, Idle, false, 0, false, None, false, false, NoBuffers(), Currents(), NoPictures(), NoneShown(),
         [], [])

  function NoBuffers(): seq<seq<byte>> {
    seq(STAGING_BUFFER + 1, _ => [])
  }

  function Currents(): seq<nat> {
    seq(GLYPH_KEYS, _ => 1)
  }

  function NoPictures(): seq<Option<nat>> {
    seq(GLYPH_KEYS, _ => None)
  }

  function NoneShown(): seq<seq<byte>> {
    seq(GLYPH_KEYS, _ => [])
  }

  /** One move of one core. */
  ghost function Step(z: seq<byte> -> Option<seq<byte>>, s: Snap, m: Move): Snap {
    match m
    case Core1Goes(junk, ends, sees) => if s.accepted == [] then s else Core1Next(z, s, junk, ends, sees)
    case Submit(stream, key) =>
      if s.core0 == Ready && s.pending == None && !s.composing && |stream| <= STREAM_CAP && s.jobState == Idle
         && !s.flashBlocked && |s.current| == GLYPH_KEYS
      then s.(core0 := Copying(Job(stream, key, Target(s.current, key)), 0)) else s
    case Poll => if s.core0 == Ready && s.pending.Some? then s.(core0 := Polled(s.jobState)) else s
    case Cancel =>
      if s.core0 == Ready && s.pending.Some? then s.(core0 := Cancelling, pending := None, cancelFlag := true) else s
    case Flash => if s.core0 == Ready then s.(core0 := FlashBegun, flashBlocked := true, hung := false) else s
    case Composed => if s.core0 == Ready then s.(composing := false) else s
    case Core0Goes(late) => Core0Next(z, s, late)
  }

  function Polled(jobState: JobState): Core0 {
    if jobState == Done then DoneSeen else if jobState == Failed then FailureSeen else Ready
  }

  ghost function Core0Next(z: seq<byte> -> Option<seq<byte>>, s: Snap, late: bool): Snap {
    match s.core0
    case Ready => s
    case DoneSeen => s.(core0 := ResultRead(s.jobResult))
    case ResultRead(_) => Collect(z, s)
    case FailureSeen => Collect(z, s)
    case Cancelling => s.(core0 := if !Busy(s.jobState) then Settled else if late then GivenUp else Cancelling)
    case GivenUp => s.(cancelFlag := false, core0 := Ready)
    case Settled => s.(cancelFlag := false, core0 := Freeing)
    case Freeing => s.(jobState := Idle, core0 := Ready)
    case FlashBegun => if !Busy(s.jobState) || late then s.(hung := Busy(s.jobState), core0 := Flashing) else s
    case Flashing => s.(flashBlocked := false, core0 := Ready)
    case _ => SubmitNext(s)
  }

  ghost function SubmitNext(s: Snap): Snap {
    match s.core0
    case Copying(job, at) => s.(core0 := if at == |job.stream| then Copied(job) else Copying(job, at + 1))
    case Copied(job) => s.(core0 := LengthSet(job))
    case LengthSet(job) => s.(core0 := OutSet(job))
    case OutSet(job) => s.(cancelFlag := false, core0 := CancelCleared(job))
    case CancelCleared(job) =>
      s.(core0 := Ready, jobState := Queued, pending := Some(job), accepted := s.accepted + [job])
    case _ => s
  }

  lemma SubmitGoesOn(s: Snap)
    requires Submitting(s.core0).Some? && (s.core0.Copying? ==> s.core0.at <= |s.core0.job.stream|)
    ensures var t := SubmitNext(s);
            && Left(t.core0) < Left(s.core0)
            && if t.core0 == Ready then t.jobState == Queued && t.pending.Some?
                                        && t.accepted == s.accepted + [Submitting(s.core0).value]
               else Submitting(t.core0) == Submitting(s.core0) && t.accepted == s.accepted && t.jobState == s.jobState
  {
  }

  /** The result of the last job is collected, and a whole glyph becomes its key's picture, or is composed. */
  ghost function Collect(z: seq<byte> -> Option<seq<byte>>, s: Snap): Snap {
    if s.pending.None? || s.accepted == [] then s
    else
      var job := s.pending.value;
      var pixels := WholeGlyph(z(job.stream));
      var t := s.(core0 := Ready, jobState := Idle, pending := None,
                  collected := s.collected + [Collected(|s.accepted| - 1, pixels)]);
      if pixels.None? then t else Kept(t, job, pixels.value)
  }

  ghost function Kept(s: Snap, job: Job, pixels: seq<byte>): Snap {
    if job.key.None? then s.(composing := true)
    else if job.key.value >= GLYPH_KEYS || !(|s.current| == |s.pictures| == |s.shown| == GLYPH_KEYS) then s
    else
      var k := job.key.value;
      s.(current := s.current[k := job.buffer % 2], pictures := s.pictures[k := Some(job.buffer)],
         shown := s.shown[k := pixels])
  }

  /** Core 1 takes the last job, and ends with what its stream inflates to, unless it sees that it is cancelled. */
  ghost function Core1Next(z: seq<byte> -> Option<seq<byte>>, s: Snap, junk: seq<byte>, ends: bool, sees: bool): Snap
    requires s.accepted != []
  {
    var job := s.accepted[|s.accepted| - 1];
    match s.core1
    case Asleep => if s.jobState == Queued then s.(core1 := Woken) else s
    case Woken => s.(jobState := Running, core1 := Inflating)
    case Inflating =>
      if job.buffer >= |s.buffers| then s
      else if !ends then s.(buffers := s.buffers[job.buffer := junk])
      else if (s.cancelFlag && sees) || z(job.stream).None? then s.(core1 := Ended(false, -1))
      else
        var pixels := z(job.stream).value;
        s.(buffers := s.buffers[job.buffer := pixels], core1 := Ended(true, |pixels|))
    case Ended(ok, length) => s.(jobResult := length, core1 := Reported(ok))
    case Reported(ok) => s.(jobState := if ok then Done else Failed, core1 := Asleep)
  }

  lemma StepIs(z: seq<byte> -> Option<seq<byte>>, s: Snap, m: Move)
    ensures m.Core1Goes? ==> Step(z, s, m) == if s.accepted == [] then s else Core1Next(z, s, m.junk, m.ends, m.sees)
    ensures m.Core0Goes? ==> Step(z, s, m) == Core0Next(z, s, m.late)
  {
  }

  /** A result that nobody waits for blocks core 1. */
  predicate Stuck(s: Snap) {
    s.pending == None && s.jobState != Idle && (s.core0 == Ready || s.core0.FlashBegun? || s.core0.Flashing?)
  }

  /** A move accepts at most one job and collects at most one result. Once stuck, the machine stays so, and accepts
      no job. */
  predicate GoesOn(s: Snap, t: Snap) {
    Logs(s, t) && StaysStuck(s, t)
  }

  predicate Logs(s: Snap, t: Snap) {
    && s.accepted <= t.accepted && |t.accepted| <= |s.accepted| + 1
    && s.collected <= t.collected && |t.collected| <= |s.collected| + 1
  }

  predicate StaysStuck(s: Snap, t: Snap) {
    Stuck(s) ==> Stuck(t) && t.accepted == s.accepted && t.collected == s.collected
  }

  lemma StepGoesOn(z: seq<byte> -> Option<seq<byte>>, s: Snap, m: Move)
    ensures GoesOn(s, Step(z, s, m))
  {
    hide Target, Core0Next, Core1Next;
    match m
    case Core1Goes(junk, ends, sees) => Core1GoesOn(z, s, junk, ends, sees);
    case Core0Goes(late) =>
      Core0Logs(z, s, late);
      Core0StaysStuck(z, s, late);
    case _ =>
  }

  lemma Core0Logs(z: seq<byte> -> Option<seq<byte>>, s: Snap, late: bool)
    ensures Logs(s, Core0Next(z, s, late))
  {
    hide Collect, SubmitNext;
    CollectLogs(z, s);
    SubmitLogs(s);
  }

  lemma CollectLogs(z: seq<byte> -> Option<seq<byte>>, s: Snap)
    ensures Logs(s, Collect(z, s))
  {
  }

  lemma SubmitLogs(s: Snap)
    ensures Logs(s, SubmitNext(s))
  {
  }

  lemma Core0StaysStuck(z: seq<byte> -> Option<seq<byte>>, s: Snap, late: bool)
    ensures StaysStuck(s, Core0Next(z, s, late))
  {
    hide Collect, SubmitNext;
  }

  lemma Core1GoesOn(z: seq<byte> -> Option<seq<byte>>, s: Snap, junk: seq<byte>, ends: bool, sees: bool)
    ensures s.accepted != [] ==> GoesOn(s, Core1Next(z, s, junk, ends, sees))
  {
    hide Logs, StaysStuck;
    if s.accepted != [] {
      Core1Logs(z, s, junk, ends, sees);
      Core1StaysStuck(z, s, junk, ends, sees);
    }
  }

  lemma Core1Logs(z: seq<byte> -> Option<seq<byte>>, s: Snap, junk: seq<byte>, ends: bool, sees: bool)
    requires s.accepted != []
    ensures Logs(s, Core1Next(z, s, junk, ends, sees))
  {
  }

  lemma Core1StaysStuck(z: seq<byte> -> Option<seq<byte>>, s: Snap, junk: seq<byte>, ends: bool, sees: bool)
    requires s.accepted != []
    ensures StaysStuck(s, Core1Next(z, s, junk, ends, sees))
  {
    match s.core1
    case Inflating =>
      var t := Core1Next(z, s, junk, ends, sees);
      assert t == s.(core1 := t.core1, buffers := t.buffers);
    case _ =>
  }

  /** A run of the machine. */
  ghost function Steps(z: seq<byte> -> Option<seq<byte>>, s: Snap, moves: seq<Move>): Snap
    decreases |moves|
  {
    if moves == [] then s else Steps(z, Step(z, s, moves[0]), moves[1..])
  }

  lemma {:induction false} StepsJoin(z: seq<byte> -> Option<seq<byte>>, s: Snap, a: seq<Move>, b: seq<Move>)
    ensures Steps(z, s, a + b) == Steps(z, Steps(z, s, a), b)
    decreases |a|
  {
    hide Step;
    if a == [] {
      assert a + b == b;
    } else {
      assert (a + b)[1..] == a[1..] + b;
      StepsJoin(z, Step(z, s, a[0]), a[1..], b);
    }
  }

  /** A flash call begins beside a job only when its wait ends late. */
  lemma {:induction false} NeverHung(z: seq<byte> -> Option<seq<byte>>, s: Snap, moves: seq<Move>)
    requires !s.hung && Core0Goes(true) !in moves
    ensures !Steps(z, s, moves).hung
    decreases |moves|
  {
    hide Step;
    if moves != [] {
      assert moves[0] in moves;
      NotHung(z, s, moves[0]);
      NeverHung(z, Step(z, s, moves[0]), moves[1..]);
    }
  }

  lemma NotHung(z: seq<byte> -> Option<seq<byte>>, s: Snap, m: Move)
    requires m != Core0Goes(true) && !s.hung
    ensures !Step(z, s, m).hung
  {
    hide Target;
  }

  function Waits(n: nat): (r: seq<Move>)
    ensures |r| == n
  {
    seq(n, _ => Core0Goes(false))
  }

  /** Core 0 begins a submit, and goes on until it is done. */
  function Submits(stream: seq<byte>, key: nat): seq<Move> {
    [Submit(stream, Some(key))] + Waits(|stream| + 5)
  }

  ghost function Queues(s: Snap, job: Job): Snap {
    s.(core0 := Ready, jobState := Queued, pending := Some(job), accepted := s.accepted + [job], cancelFlag := false)
  }

  lemma StepsFirst(z: seq<byte> -> Option<seq<byte>>, s: Snap, m: Move, rest: seq<Move>)
    ensures Steps(z, s, [m] + rest) == Steps(z, Step(z, s, m), rest)
    ensures Steps(z, s, []) == s && Steps(z, Step(z, s, m), []) == Step(z, s, m)
  {
    hide Step;
    assert ([m] + rest)[1..] == rest;
  }

  lemma WaitFirst(z: seq<byte> -> Option<seq<byte>>, s: Snap, n: nat)
    requires n > 0 && Submitting(s.core0).Some?
    ensures Steps(z, s, Waits(n)) == Steps(z, SubmitNext(s), Waits(n - 1)) && Waits(0) == []
  {
    assert Waits(n) == [Core0Goes(false)] + Waits(n - 1);
    StepsFirst(z, s, Core0Goes(false), Waits(n - 1));
    StepIs(z, s, Core0Goes(false));
    SubmitIs(z, s);
  }

  lemma SubmitIs(z: seq<byte> -> Option<seq<byte>>, s: Snap)
    requires Submitting(s.core0).Some?
    ensures Core0Next(z, s, false) == SubmitNext(s)
  {
    hide SubmitNext, Collect;
  }

  lemma {:induction false} CopyRuns(z: seq<byte> -> Option<seq<byte>>, s: Snap, job: Job, at: nat)
    requires s.core0 == Copying(job, at) && at <= |job.stream|
    ensures Steps(z, s, Waits(|job.stream| - at + 5)) == Queues(s, job)
    decreases |job.stream| - at
  {
    hide Steps, Waits;
    WaitFirst(z, s, |job.stream| - at + 5);
    if at < |job.stream| {
      CopyRuns(z, s.(core0 := Copying(job, at + 1)), job, at + 1);
    } else {
      WaitFirst(z, s.(core0 := Copied(job)), 4);
      WaitFirst(z, s.(core0 := LengthSet(job)), 3);
      WaitFirst(z, s.(core0 := OutSet(job)), 2);
      WaitFirst(z, s.(core0 := CancelCleared(job), cancelFlag := false), 1);
      StepsFirst(z, Queues(s, job), Poll, []);
    }
  }

  /** From the start, a submit for a key is accepted, and core 1 may take it. */
  lemma SubmitRuns(z: seq<byte> -> Option<seq<byte>>, stream: seq<byte>, key: nat)
    requires |stream| <= STREAM_CAP && key < GLYPH_KEYS
    ensures Steps(z, START, Submits(stream, key)) == Queues(START, Job(stream, Some(key), 2 * key))
  {
    var job := Job(stream, Some(key), 2 * key);
    assert Submits(stream, key)[1..] == Waits(|stream| + 5);
    assert Step(z, START, Submit(stream, Some(key))) == START.(core0 := Copying(job, 0));
    CopyRuns(z, START.(core0 := Copying(job, 0)), job, 0);
  }

  lemma {:induction false} StuckForGood(z: seq<byte> -> Option<seq<byte>>, s: Snap, moves: seq<Move>)
    requires Stuck(s)
    ensures var t := Steps(z, s, moves); Stuck(t) && t.accepted == s.accepted && t.collected == s.collected
    decreases |moves|
  {
    hide Step, Stuck;
    if moves != [] {
      StepGoesOn(z, s, moves[0]);
      StuckForGood(z, Step(z, s, moves[0]), moves[1..]);
    }
  }

  /** A cancel that is late. */
  const LATE_CANCEL := [Cancel, Core0Goes(true), Core0Goes(true)]

  /** One cancel that is late, and core 1 takes no job again: whatever moves come after it, the only job ever
      accepted is the cancelled one, its result is never collected, and the state is not idle. */
  lemma LateCancel(z: seq<byte> -> Option<seq<byte>>, stream: seq<byte>, moves: seq<Move>)
    requires |stream| <= STREAM_CAP
    ensures var t := Steps(z, START, Submits(stream, 0) + LATE_CANCEL + moves);
            Stuck(t) && t.jobState != Idle && |t.accepted| == 1 && t.collected == []
  {
    hide Step;
    var s := Queues(START, Job(stream, Some(0), 0));
    SubmitRuns(z, stream, 0);
    StepsJoin(z, START, Submits(stream, 0), LATE_CANCEL);
    StepsJoin(z, START, Submits(stream, 0) + LATE_CANCEL, moves);
    CancelRuns(z, s);
    StuckForGood(z, Steps(z, s, LATE_CANCEL), moves);
  }

  lemma CancelRuns(z: seq<byte> -> Option<seq<byte>>, s: Snap)
    requires s.core0 == Ready && s.pending.Some? && Busy(s.jobState)
    ensures Steps(z, s, LATE_CANCEL) == s.(pending := None, cancelFlag := false)
  {
    hide Steps;
    var late := Core0Goes(true);
    assert LATE_CANCEL == [Cancel] + ([late] + ([late] + []));
    StepsFirst(z, s, Cancel, [late] + ([late] + []));
    var t := s.(core0 := Cancelling, pending := None, cancelFlag := true);
    assert Step(z, s, Cancel) == t;
    assert Step(z, t, late) == t.(core0 := GivenUp);
    assert Step(z, t.(core0 := GivenUp), late) == s.(pending := None, cancelFlag := false);
    StepsFirst(z, t, late, [late] + []);
    StepsFirst(z, t.(core0 := GivenUp), late, []);
  }

  /** Core 1 takes the job, inflates it in one go, and reports. */
  function Inflates(): seq<Move> {
    var one := Core1Goes([], true, false);
    [one] + ([one] + ([one] + ([one] + ([one] + []))))
  }

  /** Core 0 polls, and collects. */
  function Polls(): seq<Move> {
    [Poll] + ([Core0Goes(false)] + ([Core0Goes(false)] + []))
  }

  /** A stream of a whole glyph is collected, and becomes its key's picture. */
  lemma GoodRun(z: seq<byte> -> Option<seq<byte>>, stream: seq<byte>, key: nat)
    requires |stream| <= STREAM_CAP && key < GLYPH_KEYS && z(stream).Some? && |z(stream).value| == GLYPH_SIZE
    ensures var t := Steps(z, START, Submits(stream, key) + Inflates() + Polls());
            && |t.pictures| == |t.shown| == GLYPH_KEYS && |t.buffers| == STAGING_BUFFER + 1
            && t.collected == [Collected(0, z(stream))] && t.pictures[key] == Some(2 * key)
               && Some(t.shown[key]) == z(stream)
            && Some(t.buffers[2 * key]) == z(stream) && t.jobState == Idle && t.core0 == Ready && t.pending == None
  {
    hide Steps, Step, Submits, Inflates, Polls;
    var job := Job(stream, Some(key), 2 * key);
    var s := Queues(START, job);
    SubmitRuns(z, stream, key);
    StepsJoin(z, START, Submits(stream, key), Inflates());
    StepsJoin(z, START, Submits(stream, key) + Inflates(), Polls());
    InflateRuns(z, s, job);
    PollRuns(z, s.(jobState := Done, jobResult := GLYPH_SIZE, buffers := s.buffers[2 * key := z(stream).value]), job);
  }

  lemma InflateRuns(z: seq<byte> -> Option<seq<byte>>, s: Snap, job: Job)
    requires s.core1 == Asleep && s.jobState == Queued && s.accepted != [] && s.accepted[|s.accepted| - 1] == job
    requires !s.cancelFlag && job.buffer < |s.buffers| && z(job.stream).Some?
    ensures var p := z(job.stream).value;
            (Steps(z, s, Inflates()) == s.(jobState := Done, jobResult := |p|, buffers := s.buffers[job.buffer := p]))
  {
    hide Steps, Step;
    var one, p := Core1Goes([], true, false), z(job.stream).value;
    StepsFirst(z, s, one, [one] + ([one] + ([one] + ([one] + []))));
    StepIs(z, s, one);
    var t := s.(core1 := Woken);
    StepsFirst(z, t, one, [one] + ([one] + ([one] + [])));
    StepIs(z, t, one);
    t := s.(core1 := Inflating, jobState := Running);
    StepsFirst(z, t, one, [one] + ([one] + []));
    StepIs(z, t, one);
    t := t.(core1 := Ended(true, |p|), buffers := s.buffers[job.buffer := p]);
    StepsFirst(z, t, one, [one] + []);
    StepIs(z, t, one);
    t := t.(core1 := Reported(true), jobResult := |p|);
    StepsFirst(z, t, one, []);
    StepIs(z, t, one);
  }

  lemma PollRuns(z: seq<byte> -> Option<seq<byte>>, s: Snap, job: Job)
    requires s.core0 == Ready && s.pending == Some(job) && s.jobState == Done && s.accepted != []
    ensures Steps(z, s, Polls()) == Collect(z, s)
  {
    hide Steps, Kept;
    var go := Core0Goes(false);
    StepsFirst(z, s, Poll, [go] + ([go] + []));
    StepsFirst(z, s.(core0 := DoneSeen), go, [go] + []);
    StepsFirst(z, s.(core0 := ResultRead(s.jobResult)), go, []);
  }

  // ---- The cores ----

  /** A job never writes where a picture comes from. */
  lemma TargetIsOther(current: seq<nat>, key: Option<nat>)
    requires |current| == GLYPH_KEYS && forall k :: 0 <= k < GLYPH_KEYS ==> current[k] <= 1
    ensures Target(current, key) <= STAGING_BUFFER
    ensures forall k :: 0 <= k < GLYPH_KEYS ==> Target(current, key) != 2 * k + current[k]
  {
  }

  class Cores {
    /** What a stream inflates to, when it inflates to at most GLYPH_SIZE bytes. */
    const z: seq<byte> -> Option<seq<byte>>
    // glyphcore.c's shared variables.
    var jobState: JobState
    var cancelFlag: bool
    var jobResult: int
    var flashBlocked: bool
    var streamBuffer: seq<byte>
    var jobInLen: nat
    var jobOut: nat
    var buffers: seq<seq<byte>>
    var core0: Core0
    var core1: Core1
    // The reader: the inflate it waits for, and the buffer of each key's last glyph.
    var pending: Option<Job>
    var current: seq<nat>
    // The buffer that each key's picture comes from, and whether a Store frame is being composed.
    var pictures: seq<Option<nat>>
    var composing: bool
    // Every job that submit accepted, every result collected, and the bytes of each key's picture.
    ghost var accepted: seq<Job>
    ghost var collected: seq<Collected>
    ghost var shown: seq<seq<byte>>
    // The job in progress was asked to stop; the flash call did not wait for it.
    ghost var asked: bool
    ghost var hung: bool

    constructor (z: seq<byte> -> Option<seq<byte>>)
      ensures this.z == z && Valid() && jobState == Idle && core0 == Ready && accepted == [] && pending == None
      ensures !composing && !flashBlocked && collected == [] && !hung && Now() == START
    {
      this.z := z;
      jobState, cancelFlag, jobResult, flashBlocked, jobInLen, jobOut := Idle, false, 0, false, 0, 0;
      streamBuffer, buffers := seq<byte>(STREAM_CAP, _ => 0), NoBuffers();
      core0, core1, pending, composing := Ready, Asleep, None, false;
      current, pictures := Currents(), NoPictures();
      accepted, collected, shown, asked, hung := [], [], NoneShown(), false, false;
    }

    ghost function Now(): Snap
      reads this
    {
      Snap(core0, core1, jobState, cancelFlag, jobResult, flashBlocked, pending, composing, hung, buffers, current,
           pictures, shown, accepted, collected)
    }

    /** The two cores agree on whose turn it is. */
    ghost predicate Turns()
      reads this`jobState, this`cancelFlag, this`jobResult, this`flashBlocked, this`core0, this`core1, this`pending
      reads this`composing
    {
      && (core1 == Woken ==> jobState == Queued)
      && (core1.Inflating? || core1.Ended? || core1.Reported? <==> jobState == Running)
      && (Submitting(core0).Some? ==> jobState == Idle && !flashBlocked && !composing && pending.None?)
      && (core0.DoneSeen? || core0.ResultRead? ==> jobState == Done && pending.Some?)
      && (core0.ResultRead? ==> core0.length == jobResult)
      && (core0.FailureSeen? ==> jobState == Failed && pending.Some?)
      && (core0.Cancelling? || core0.GivenUp? || core0.Settled? || core0.Freeing? ==> pending.None?)
      && (core0.Settled? || core0.Freeing? ==> !Busy(jobState))
      && (core0.GivenUp? ==> jobState != Idle)
      && (cancelFlag ==> core0.Cancelling? || core0.GivenUp? || core0.Settled?)
      && (core0.FlashBegun? || core0.Flashing? <==> flashBlocked)
    }

    /** No job runs during a flash call that did not run out of patience. */
    ghost predicate FlashSafe()
      reads this`core0, this`core1, this`hung, this`jobState
    {
      core0.Flashing? && !hung ==> !Busy(jobState) && core1 == Asleep
    }

    ghost predicate Sizes()
      reads this`streamBuffer, this`buffers, this`current, this`pictures, this`shown
    {
      && |streamBuffer| == STREAM_CAP && |buffers| == STAGING_BUFFER + 1
      && |current| == |pictures| == |shown| == GLYPH_KEYS && forall k :: 0 <= k < GLYPH_KEYS ==> current[k] <= 1
    }

    /** The job in the shared variables is the last one accepted, whole, and goes to a buffer that no key's
        picture comes from. */
    ghost predicate JobOk()
      reads this`streamBuffer, this`buffers, this`current, this`pictures, this`shown, this`jobState, this`jobInLen
      reads this`jobOut, this`accepted, this`pending, this`asked, this`composing
    {
      && Sizes()
      && (jobState != Idle ==> accepted != [] && Written(accepted[|accepted| - 1]))
      && (pending.Some? ==> jobState != Idle && pending.value == accepted[|accepted| - 1] && !asked)
      && (composing ==> jobState == Idle)
    }

    /** The shared variables hold this job. */
    ghost predicate Written(job: Job)
      reads this`streamBuffer, this`jobInLen, this`jobOut, this`current
    {
      && |job.stream| <= |streamBuffer| && streamBuffer[..|job.stream|] == job.stream && jobInLen == |job.stream|
      && |current| == GLYPH_KEYS && jobOut == job.buffer == Target(current, job.key)
    }

    /** How far `submit` has written the next job. */
    ghost predicate SubmitOk()
      reads this`core0, this`streamBuffer, this`jobInLen, this`jobOut, this`current
    {
      Submitting(core0).Some? ==>
        var job := Submitting(core0).value;
        && |current| == GLYPH_KEYS && job.buffer == Target(current, job.key) && |job.stream| <= |streamBuffer|
        && (core0.Copying? ==> core0.at <= |job.stream| && streamBuffer[..core0.at] == job.stream[..core0.at])
        && (!core0.Copying? ==> streamBuffer[..|job.stream|] == job.stream)
        && (core0.LengthSet? ==> jobInLen == |job.stream|)
        && (core0.OutSet? || core0.CancelCleared? ==> Written(job))
    }

    /** What core 1 found is what the job's stream inflates to. It stops early only when asked. */
    ghost predicate ResultOk()
      reads this`jobState, this`jobResult, this`jobOut, this`buffers, this`core1, this`accepted, this`asked
      reads this`cancelFlag
    {
      jobState != Idle ==>
        && accepted != [] && jobOut < |buffers|
        && var pixels := z(accepted[|accepted| - 1].stream);
        && (core1.Ended? ==> Found(core1.ok, core1.length, pixels))
        && (core1.Reported? ==> Found(core1.ok, jobResult, pixels))
        && (jobState == Done ==> Found(true, jobResult, pixels))
        && (jobState == Failed ==> Found(false, jobResult, pixels))
        && (cancelFlag ==> asked)
    }

    ghost predicate Found(ok: bool, length: int, pixels: Option<seq<byte>>)
      reads this`jobOut, this`buffers, this`asked
    {
      if ok then jobOut < |buffers| && pixels == Some(buffers[jobOut]) && length == |buffers[jobOut]|
      else asked || pixels.None?
    }

    /** Every key's picture is still, byte for byte, what its stream inflated to. */
    ghost predicate PicturesOk()
      reads this`buffers, this`current, this`pictures, this`shown
    {
      |current| == |pictures| == |shown| == GLYPH_KEYS &&
      forall k :: 0 <= k < GLYPH_KEYS && pictures[k].Some? ==>
        && pictures[k].value == 2 * k + current[k] < |buffers|
        && buffers[pictures[k].value] == shown[k]
    }

    /** The results collected are of different jobs, in order, and each is what its stream inflates to. */
    ghost predicate CollectedOk()
      reads this`collected, this`accepted
    {
      && (forall i :: 0 <= i < |collected| ==> collected[i].job < |accepted|)
      && (forall i :: 0 <= i < |collected| ==> collected[i].pixels == WholeGlyph(z(accepted[collected[i].job].stream)))
      && (forall i, j :: 0 <= i < j < |collected| ==> collected[i].job < collected[j].job)
    }

    /** The result that the reader waits for is not yet collected. */
    ghost predicate Awaited()
      reads this`collected, this`accepted, this`pending
    {
      pending.Some? && collected != [] ==> collected[|collected| - 1].job < |accepted| - 1
    }

    ghost predicate Valid()
      reads this
    {
      Turns() && FlashSafe() && JobOk() && SubmitOk() && ResultOk() && PicturesOk() && CollectedOk() && Awaited()
    }

    // ---- Core 0 ----

    /** `submit`: it takes the job only when the last one's result is gone and no flash write is on. */
    method StartSubmit(stream: seq<byte>, key: Option<nat>) returns (taken: bool)
      requires Valid() && core0 == Ready && pending == None && !composing && |stream| <= STREAM_CAP
      modifies this`core0
      ensures Valid() && taken == (jobState == Idle && !flashBlocked)
      ensures core0 == if taken then Copying(Job(stream, key, Target(current, key)), 0) else Ready
      ensures Now() == old(Now()).(core0 := core0)
    {
      if jobState != Idle || flashBlocked {
        return false;
      }
      core0 := Copying(Job(stream, key, Target(current, key)), 0);
      return true;
    }

    /** The next access of `submit`. */
    method SubmitStep()
      requires Valid() && Submitting(core0).Some?
      modifies this`core0, this`streamBuffer, this`jobInLen, this`jobOut, this`cancelFlag, this`jobState
      modifies this`pending, this`accepted, this`asked
      ensures Valid()
              && (core0 == Ready ==> jobState == Queued && accepted == old(accepted) + [Submitting(old(core0)).value])
      ensures core0 != Ready ==>
                Submitting(core0) == Submitting(old(core0)) && accepted == old(accepted) && jobState == Idle
      ensures Left(core0) < Left(old(core0)) && (core0 == Ready ==> pending.Some?) && Now() == SubmitNext(old(Now()))
    {
      hide Valid, SubmitNext;
      SubmitsNow();
      SubmitGoesOn(Now());
      SubmitAccess();
    }

    method SubmitAccess()
      requires Valid() && Submitting(core0).Some?
      modifies this`core0, this`streamBuffer, this`jobInLen, this`jobOut, this`cancelFlag, this`jobState
      modifies this`pending, this`accepted, this`asked
      ensures Valid() && Now() == SubmitNext(old(Now()))
    {
      hide Valid, Now;
      SubmitsNow();
      NowIs();
      match core0 {
        case Copying(job, at) =>
          if at == |job.stream| {
            EndCopy(job);
          } else {
            CopyByte(job, at);
          }
        case Copied(job) =>
          SetLength(job);
        case LengthSet(job) =>
          SetOut(job);
        case OutSet(job) =>
          ClearCancel(job);
        case CancelCleared(job) =>
          QueueJob(job);
      }
    }

    lemma NowIs()
      ensures var s := Now();
              && s.core0 == core0 && s.accepted == accepted && s.pending == pending && s.jobState == jobState
              && s.composing == composing && s.flashBlocked == flashBlocked && s.current == current
    {
    }

    lemma SubmitsNow()
      requires Valid() && Submitting(core0).Some?
      ensures jobState == Idle && pending == None
      ensures core0.Copying? ==> core0.at <= |core0.job.stream|
    {
    }

    method EndCopy(job: Job)
      requires Valid() && core0 == Copying(job, |job.stream|)
      modifies this`core0
      ensures Valid() && Now() == old(Now()).(core0 := Copied(job))
    {
      hide PicturesOk, CollectedOk, Awaited, Found;
      core0 := Copied(job);
    }

    method SetLength(job: Job)
      requires Valid() && core0 == Copied(job)
      modifies this`jobInLen, this`core0
      ensures Valid() && Now() == old(Now()).(core0 := LengthSet(job))
    {
      hide PicturesOk, CollectedOk, Awaited, Found;
      jobInLen, core0 := |job.stream|, LengthSet(job);
    }

    method SetOut(job: Job)
      requires Valid() && core0 == LengthSet(job)
      modifies this`jobOut, this`core0
      ensures Valid() && Now() == old(Now()).(core0 := OutSet(job))
    {
      hide PicturesOk, CollectedOk, Awaited, Found;
      jobOut, core0 := job.buffer, OutSet(job);
    }

    method ClearCancel(job: Job)
      requires Valid() && core0 == OutSet(job)
      modifies this`cancelFlag, this`core0
      ensures Valid() && Now() == old(Now()).(core0 := CancelCleared(job), cancelFlag := false)
    {
      hide PicturesOk, CollectedOk, Awaited, Found;
      cancelFlag, core0 := false, CancelCleared(job);
    }

    /** The last access of `submit`: core 1 may take the job from here on. */
    method QueueJob(job: Job)
      requires Valid() && core0 == CancelCleared(job)
      modifies this`core0, this`jobState, this`pending, this`accepted, this`asked
      ensures Valid() && accepted == old(accepted) + [job]
      ensures Now() == old(Now()).(core0 := Ready, jobState := Queued, pending := Some(job), accepted := accepted)
    {
      hide PicturesOk, Found, Target;
      TargetIsOther(current, job.key);
      jobState, core0, pending, asked := Queued, Ready, Some(job), false;
      accepted := accepted + [job];
    }

    method CopyByte(job: Job, at: nat)
      requires Valid() && core0 == Copying(job, at) && at < |job.stream|
      modifies this`core0, this`streamBuffer
      ensures Valid() && Now() == old(Now()).(core0 := Copying(job, at + 1))
    {
      hide ResultOk, PicturesOk, CollectedOk;
      streamBuffer := streamBuffer[at := job.stream[at]];
      assert streamBuffer[..at + 1] == streamBuffer[..at] + [job.stream[at]];
      core0 := Copying(job, at + 1);
    }

    /** `poll`'s look at the state: a running job is left alone. */
    method StartPoll()
      requires Valid() && core0 == Ready && pending.Some?
      modifies this`core0
      ensures Valid() && core0 == if jobState == Done then DoneSeen else if jobState == Failed then FailureSeen
              else Ready
      ensures Now() == old(Now()).(core0 := core0)
    {
      if jobState == Done {
        core0 := DoneSeen;
      } else if jobState == Failed {
        core0 := FailureSeen;
      }
    }

    method ReadResult()
      requires Valid() && core0 == DoneSeen
      modifies this`core0
      ensures Valid() && core0 == ResultRead(jobResult)
    {
      core0 := ResultRead(jobResult);
    }

    /** The end of `poll`, and what the reader makes of it: the result is that of the last job accepted, and
        only a glyph that inflated whole becomes its key's picture. */
    method EndPoll()
      requires Valid() && (core0.ResultRead? || core0.FailureSeen?)
      modifies this`core0, this`jobState, this`pending, this`collected, this`current, this`pictures, this`shown
      modifies this`composing
      ensures Valid() && core0 == Ready && jobState == Idle && pending == None
      ensures collected == old(collected) + [Collected(|accepted| - 1, WholeGlyph(z(accepted[|accepted| - 1].stream)))]
      ensures forall k :: 0 <= k < GLYPH_KEYS ==> pictures[k] == old(pictures[k]) || Some(k) == old(pending).value.key
      ensures collected[|collected| - 1].pixels.Some? ==>
                forall k :: 0 <= k < GLYPH_KEYS && Some(k) == old(pending).value.key ==>
                  pictures[k].Some? && Some(shown[k]) == collected[|collected| - 1].pixels
      ensures Now() == Collect(z, old(Now()))
    {
      hide CollectedOk, SubmitOk, FlashSafe, ResultOk, Awaited, PicturesOk;
      var job := pending.value;
      var whole := core0.ResultRead? && core0.length == GLYPH_SIZE;
      Free(whole);
      if whole {
        Keep(job);
      }
    }

    method Free(whole: bool)
      requires Valid() && (core0.ResultRead? || core0.FailureSeen?)
               && whole == (core0.ResultRead? && core0.length == GLYPH_SIZE)
      modifies this`core0, this`jobState, this`pending, this`collected
      ensures Valid() && core0 == Ready && jobState == Idle && pending == None
      ensures collected == old(collected) + [Collected(|accepted| - 1, WholeGlyph(z(accepted[|accepted| - 1].stream)))]
      ensures old(pending).value.buffer == Target(current, old(pending).value.key)
              && old(pending).value.buffer < |buffers|
      ensures collected[|collected| - 1].pixels == if whole then Some(buffers[old(pending).value.buffer]) else None
    {
      hide PicturesOk;
      ghost var pixels := if whole then Some(buffers[pending.value.buffer]) else None;
      assert pixels == WholeGlyph(z(accepted[|accepted| - 1].stream));
      MakeIdle();
      hide JobOk, SubmitOk, ResultOk, Turns, FlashSafe;
      collected := collected + [Collected(|accepted| - 1, pixels)];
    }

    method MakeIdle()
      requires Valid() && (core0.ResultRead? || core0.FailureSeen?)
      modifies this`core0, this`jobState, this`pending
      ensures Valid() && core0 == Ready && jobState == Idle && pending == None
      ensures collected == [] || collected[|collected| - 1].job < |accepted| - 1
    {
      hide PicturesOk, CollectedOk;
      jobState, core0, pending := Idle, Ready, None;
    }

    method Keep(job: Job)
      requires Valid() && core0 == Ready && jobState == Idle && pending == None
      requires job.buffer == Target(current, job.key) && job.buffer < |buffers|
      modifies this`current, this`pictures, this`shown, this`composing
      ensures Valid()
      ensures forall k :: 0 <= k < GLYPH_KEYS ==>
                if Some(k) == job.key then pictures[k] == Some(job.buffer) && shown[k] == buffers[job.buffer]
                else pictures[k] == old(pictures[k]) && shown[k] == old(shown[k])
      ensures Now() == Kept(old(Now()), job, buffers[job.buffer])
    {
      hide CollectedOk, FlashSafe, Found;
      if job.key.Some? && job.key.value < GLYPH_KEYS {
        var k := job.key.value;
        current := current[k := job.buffer % 2];
        pictures := pictures[k := Some(job.buffer)];
        shown := shown[k := buffers[job.buffer]];
      } else if job.key.None? {
        composing := true;
      }
    }

    /** The board has composed the Store frame from the staging buffer. */
    method EndCompose()
      requires Valid() && core0 == Ready && composing
      modifies this`composing
      ensures Valid() && Now() == old(Now()).(composing := false)
    {
      composing := false;
    }

    /** The reader gives an inflate up that takes too long: `cancel`. */
    method StartCancel()
      requires Valid() && core0 == Ready && pending.Some?
      modifies this`core0, this`cancelFlag, this`pending, this`asked
      ensures Valid() && core0 == Cancelling && pending == None && jobState == old(jobState) && cancelFlag
      ensures Now() == old(Now()).(core0 := Cancelling, pending := None, cancelFlag := true)
    {
      hide PicturesOk, CollectedOk;
      pending, cancelFlag, asked, core0 := None, true, true, Cancelling;
    }

    /** The next access of `wait_for_idle`: `late` is whether its time is up. */
    method CancelStep(late: bool) returns (r: Option<bool>)
      requires Valid() && (core0.Cancelling? || core0.GivenUp? || core0.Settled? || core0.Freeing?)
      modifies this`core0, this`cancelFlag, this`jobState
      ensures old(core0) == Cancelling ==>
                core0 == if !Busy(jobState) then Settled else if late then GivenUp else Cancelling
      ensures old(core0) == GivenUp ==> r == Some(false)
      ensures old(core0) == Settled ==> core0 == Freeing && !cancelFlag
      ensures if old(core0) == Freeing then r == Some(true) else jobState == old(jobState)
      ensures cancelFlag == (old(core0) != GivenUp && old(core0) != Settled && old(cancelFlag))
      ensures Valid() && pending == None && (r.Some? <==> core0 == Ready) && (r.Some? ==> r.value == (jobState == Idle))
    {
      hide CollectedOk, PicturesOk, Found;
      r := None;
      match core0 {
        case Cancelling =>
          if !Busy(jobState) {
            core0 := Settled;
          } else if late {
            core0 := GivenUp;
          }
        case GivenUp =>
          cancelFlag, core0, r := false, Ready, Some(false);
        case Settled =>
          cancelFlag, core0 := false, Freeing;
        case Freeing =>
          jobState, core0, r := Idle, Ready, Some(true);
      }
    }

    /** `flash_enter`'s first access. */
    method StartFlash()
      requires Valid() && core0 == Ready
      modifies this`core0, this`flashBlocked, this`hung
      ensures Valid() && core0 == FlashBegun && flashBlocked && !hung
      ensures Now() == old(Now()).(core0 := FlashBegun, flashBlocked := true, hung := false)
    {
      hide JobOk, ResultOk, PicturesOk, CollectedOk;
      flashBlocked, hung, core0 := true, false, FlashBegun;
    }

    /** The next access of `flash_enter` and `flash_leave`. */
    method FlashStep(late: bool)
      requires Valid() && (core0.FlashBegun? || core0.Flashing?)
      modifies this`core0, this`flashBlocked, this`hung
      ensures Valid() && (core0.Ready? || core0.FlashBegun? || core0.Flashing?)
      ensures old(core0) == FlashBegun ==> core0 == if late || !Busy(jobState) then Flashing else FlashBegun
      ensures old(core0) == Flashing ==> core0 == Ready && !flashBlocked
      ensures Now() == Core0Next(z, old(Now()), late)
    {
      hide JobOk, ResultOk, PicturesOk, CollectedOk;
      if core0.Flashing? {
        flashBlocked, core0 := false, Ready;
      } else if !Busy(jobState) || late {
        hung := Busy(jobState);
        core0 := Flashing;
      }
    }

    // ---- Core 1 ----

    /** The next access of core 1. While it inflates it writes what it likes, but only to the job's buffer; a
        cancel that it sees ends the job. */
    method Core1Step(junk: seq<byte>, ends: bool, sees: bool)
      requires Valid()
      modifies this`core1, this`jobState, this`jobResult, this`buffers
      ensures Valid() && |buffers| == |old(buffers)| && (jobState == Idle <==> old(jobState) == Idle)
      ensures old(core1) == Asleep ==> core1 == if jobState == Queued then Woken else Asleep
      ensures old(core1) == Woken ==> core1 == Inflating && jobState == Running
      ensures old(core1) == Inflating ==> (core1.Ended? <==> ends) && (core1 == Inflating <==> !ends)
      ensures old(core1) == Inflating && ends ==>
                core1.ok == (z(streamBuffer[..jobInLen]).Some? && !(cancelFlag && sees))
      ensures old(core1).Ended? ==> core1 == Reported(old(core1).ok) && jobResult == old(core1).length
      ensures old(core1).Reported? ==> core1 == Asleep && jobState == if old(core1).ok then Done else Failed
      ensures forall b :: 0 <= b < |buffers| && b != jobOut ==> buffers[b] == old(buffers[b])
      ensures old(core1) == Asleep || old(core1) == Woken ==> jobResult == old(jobResult) && buffers == old(buffers)
      ensures old(core1) == Asleep ==> jobState == old(jobState)
      ensures old(core1) == Inflating ==> jobState == old(jobState) && jobResult == old(jobResult) && jobOut < |buffers|
      ensures old(core1) == Inflating && !ends ==> buffers == old(buffers)[jobOut := junk]
      ensures old(core1) == Inflating && ends ==>
                core1.length == if core1.ok then |z(streamBuffer[..jobInLen]).value| else -1
      ensures old(core1) == Inflating && ends ==>
                buffers == if core1.ok then old(buffers)[jobOut := z(streamBuffer[..jobInLen]).value] else old(buffers)
      ensures old(core1).Ended? ==> jobState == old(jobState) && buffers == old(buffers)
      ensures old(core1).Reported? ==> jobResult == old(jobResult) && buffers == old(buffers)
    {
      hide CollectedOk, SubmitOk, Awaited, PicturesOk, Written, Found;
      match core1 {
        case Asleep =>
          if jobState == Queued {
            core1 := Woken;
          }
        case Woken =>
          jobState, core1 := Running, Inflating;
        case Inflating =>
          InflateStep(junk, ends, sees);
        case Ended(ok, length) =>
          jobResult, core1 := length, Reported(ok);
        case Reported(ok) =>
          jobState, core1 := if ok then Done else Failed, Asleep;
      }
    }

    /** Core 1's next access, as a move of the machine. */
    method Core1Move(junk: seq<byte>, ends: bool, sees: bool)
      requires Valid()
      modifies this`core1, this`jobState, this`jobResult, this`buffers
      ensures Valid() && (jobState == Idle <==> old(jobState) == Idle)
      ensures Now() == if accepted == [] then old(Now()) else Core1Next(z, old(Now()), junk, ends, sees)
    {
      hide Valid;
      JobIs();
      Core1Step(junk, ends, sees);
    }

    /** The shared variables hold the last job that was accepted. */
    lemma JobIs()
      requires Valid()
      ensures |current| == GLYPH_KEYS && (jobState == Idle ==> core1 == Asleep)
      ensures jobState != Idle ==>
                && accepted != [] && jobInLen <= |streamBuffer| && jobOut < |buffers|
                && streamBuffer[..jobInLen] == accepted[|accepted| - 1].stream
                && jobOut == accepted[|accepted| - 1].buffer
    {
    }

    /** The inflate goes on, or ends. */
    method InflateStep(junk: seq<byte>, ends: bool, sees: bool)
      requires Valid() && core1 == Inflating
      modifies this`core1, this`buffers
      ensures Valid() && |buffers| == |old(buffers)| && (core1.Ended? <==> ends) && (core1 == Inflating <==> !ends)
      ensures ends ==> core1.ok == (z(streamBuffer[..jobInLen]).Some? && !(cancelFlag && sees))
      ensures forall b :: 0 <= b < |buffers| && b != jobOut ==> buffers[b] == old(buffers[b])
      ensures jobOut < |buffers| && |old(buffers)| == |buffers|
      ensures buffers == if !ends then old(buffers)[jobOut := junk]
                         else if core1.ok then old(buffers)[jobOut := z(streamBuffer[..jobInLen]).value]
                             else old(buffers)
      ensures ends ==> core1.length == if core1.ok then |z(streamBuffer[..jobInLen]).value| else -1
    {
      hide CollectedOk, SubmitOk, Awaited, Target;
      TargetIsOther(current, accepted[|accepted| - 1].key);
      if !ends {
        buffers := buffers[jobOut := junk];
        return;
      }
      var pixels := z(streamBuffer[..jobInLen]);
      if (cancelFlag && sees) || pixels.None? {
        core1 := Ended(false, -1);
      } else {
        buffers := buffers[jobOut := pixels.value];
        core1 := Ended(true, |pixels.value|);
      }
    }

    // ---- Any interleaving ----

    /** A result that nobody waits for blocks core 1: see `Do`. */
    ghost predicate Locked()
      reads this
    {
      Stuck(Now())
    }

    /** One move of one core, when it is possible at this point: core 0 starts something or goes on with what
        it does, or core 1 makes its next access. It is the move of the machine. A late cancel locks core 1 out for
        good: once locked, it stays so, and takes no job. */
    method Do(m: Move) returns (told: Option<bool>)
      requires Valid()
      modifies this
      ensures Valid() && Now() == Step(z, old(Now()), m)
      ensures old(accepted) <= accepted && old(collected) <= collected
      ensures |accepted| <= |old(accepted)| + 1 && |collected| <= |old(collected)| + 1
      ensures old(Locked()) ==> Locked() && accepted == old(accepted)
      ensures told.Some? ==> told.value == (jobState == Idle) && (!told.value ==> Locked())
    {
      hide Valid, Step, Stuck, Core0Next, Core1Next;
      told := None;
      StepGoesOn(z, Now(), m);
      StepIs(z, Now(), m);
      if m.Core1Goes? {
        Core1Move(m.junk, m.ends, m.sees);
      } else if m.Core0Goes? {
        told := Core0Step(m.late);
      } else {
        Begin(m);
      }
    }

    /** Core 0 starts something, when it can. */
    method Begin(m: Move)
      requires Valid() && !m.Core1Goes? && !m.Core0Goes?
      modifies this
      ensures Valid() && Now() == Step(z, old(Now()), m)
    {
      hide Valid, Now;
      JobIs();
      NowIs();
      if core0 != Ready {
        return;
      }
      match m {
        case Submit(stream, key) =>
          if pending == None && !composing && |stream| <= STREAM_CAP {
            var taken := StartSubmit(stream, key);
          }
        case Poll =>
          if pending.Some? {
            StartPoll();
          }
        case Cancel =>
          if pending.Some? {
            StartCancel();
          }
        case Flash =>
          StartFlash();
        case Composed =>
          if composing {
            EndCompose();
          }
      }
    }

    /** Core 0's next access inside a call. */
    method Core0Step(late: bool) returns (told: Option<bool>)
      requires Valid()
      modifies this
      ensures Valid() && Now() == Core0Next(z, old(Now()), late)
      ensures told.Some? ==> told.value == (jobState == Idle) && (!told.value ==> Locked())
    {
      hide Valid, Collect, SubmitNext, Stuck;
      told := None;
      if core0 == Ready {
        return;
      }
      if core0.Cancelling? || core0.GivenUp? || core0.Settled? || core0.Freeing? {
        told := CancelMove(late);
      } else if core0.FlashBegun? || core0.Flashing? {
        FlashStep(late);
      } else if Submitting(core0).Some? {
        SubmitStep();
      } else if core0.DoneSeen? {
        ReadResult();
      } else {
        EndPoll();
      }
    }

    /** The next access of `wait_for_idle`, as a move of the machine. */
    method CancelMove(late: bool) returns (told: Option<bool>)
      requires Valid() && (core0.Cancelling? || core0.GivenUp? || core0.Settled? || core0.Freeing?)
      modifies this`core0, this`cancelFlag, this`jobState
      ensures Valid() && pending == None && Now() == Core0Next(z, old(Now()), late)
      ensures told.Some? ==> told.value == (jobState == Idle) && (!told.value ==> Locked())
    {
      hide Valid;
      told := CancelStep(late);
    }
  }

  /** The job that a `submit` under way writes. */
  function Submitting(c: Core0): Option<Job> {
    if c.Copying? || c.Copied? || c.LengthSet? || c.OutSet? || c.CancelCleared? then Some(c.job) else None
  }

  /** How many accesses a `submit` under way still has. */
  function Left(c: Core0): nat {
    match c
    case Copying(job, at) => if at <= |job.stream| then |job.stream| - at + 5 else 5
    case Copied(_) => 4
    case LengthSet(_) => 3
    case OutSet(_) => 2
    case CancelCleared(_) => 1
    case _ => 0
  }

  /** Any interleaving of the two cores is a run of the machine: every result collected is what the stream of its own
      job inflates to, the jobs in order, and no job runs in a flash call that waited it out. */
  method Run(z: seq<byte> -> Option<seq<byte>>, moves: seq<Move>) returns (c: Cores)
    ensures fresh(c) && c.Valid() && c.z == z && c.Now() == Steps(z, START, moves)
    ensures forall i :: 0 <= i < |c.collected| ==> c.collected[i].job < |c.accepted|
    ensures forall i :: 0 <= i < |c.collected| ==>
              var p := z(c.accepted[c.collected[i].job].stream);
              c.collected[i].pixels == if p.Some? && |p.value| == 32768 then p else None
    ensures forall i, j :: 0 <= i < j < |c.collected| ==> c.collected[i].job < c.collected[j].job
    ensures c.core0.Flashing? && !c.hung ==> !Busy(c.jobState) && c.core1 == Asleep
    ensures Core0Goes(true) !in moves ==> !c.hung
    ensures forall k :: 0 <= k < |c.pictures| && c.pictures[k].Some? && c.jobState != Idle ==>
              c.pictures[k] != Some(c.jobOut)
  {
    hide Cores.Valid, Step;
    c := new Cores(z);
    for i := 0 to |moves|
      invariant fresh(c) && c.Valid() && c.z == z && Steps(z, START, moves) == Steps(z, c.Now(), moves[i..])
    {
      assert moves[i..][1..] == moves[i + 1..];
      var _ := c.Do(moves[i]);
    }
    Keeps(c);
    if Core0Goes(true) !in moves {
      NeverHung(z, START, moves);
    }
  }

  /** What `Valid` says to a reader of the pictures and the results. */
  lemma Keeps(c: Cores)
    requires c.Valid()
    ensures forall i :: 0 <= i < |c.collected| ==> c.collected[i].job < |c.accepted|
    ensures forall i :: 0 <= i < |c.collected| ==>
              var p := c.z(c.accepted[c.collected[i].job].stream);
              c.collected[i].pixels == if p.Some? && |p.value| == 32768 then p else None
    ensures forall i, j :: 0 <= i < j < |c.collected| ==> c.collected[i].job < c.collected[j].job
    ensures c.core0.Flashing? && !c.hung ==> !Busy(c.jobState) && c.core1 == Asleep
    ensures forall k :: 0 <= k < |c.pictures| && c.pictures[k].Some? && c.jobState != Idle ==>
              c.pictures[k] != Some(c.jobOut)
  {
    hide Cores.SubmitOk, Cores.ResultOk, Cores.Turns;
  }

  /** The pixels of a stream that inflates to exactly a whole glyph. */
  function WholeGlyph(pixels: Option<seq<byte>>): Option<seq<byte>> {
    if pixels.Some? && |pixels.value| == GLYPH_SIZE then pixels else None
  }
}
