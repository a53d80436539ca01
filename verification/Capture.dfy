/** The capture path: from hardware samples to outgoing frames (client/native/libvoice_engine.c). */
module Capture {
  import opened Basics
  import opened Limiter
  import opened RingBuffer
  import opened SampleFlow
  import opened PeerTable
  import Hangover
  import Mixing

  // ---------------------------------------------------------------------------
  // Downmixing

  function SumOf(xs: seq<Sample>): int {
    if xs == [] then 0 else SumOf(xs[..|xs| - 1]) + xs[|xs| - 1]
  }

  /** C's integer division, toward zero. */
  function Quotient(sum: int, n: nat): int
    requires n > 0
  {
    if sum >= 0 then sum / n else -(-sum / n)
  }

  function ToSample(x: int): Sample {
    if x > 32767 then 32767 else if x < -32768 then -32768 else x
  }

  /** One mono sample from one frame of all channels. */
  function DownmixFrame(frame: seq<Sample>): Sample
    requires frame != []
  {
    ToSample(Quotient(SumOf(frame), |frame|))
  }

  function Downmix(input: seq<Sample>, channels: nat): seq<Sample>
    requires channels > 0
  {
    if |input| < channels then []
    else Downmix(input[..|input| - channels], channels) + [DownmixFrame(input[|input| - channels..])]
  }

  lemma ProductMonotone(a: int, b: int, n: nat)
    requires a <= b
    ensures a * n <= b * n
  {
  }

  lemma ProductStep(a: int, n: nat)
    ensures a * (n + 1) == a * n + a
    ensures (a + 1) * n == a * n + n
  {
  }

  ghost predicate Within(xs: seq<Sample>, lo: int, hi: int) {
    forall k :: 0 <= k < |xs| ==> lo <= xs[k] <= hi
  }

  lemma {:induction false} SumBetween(xs: seq<Sample>, lo: int, hi: int)
    requires Within(xs, lo, hi)
    ensures lo * |xs| <= SumOf(xs) <= hi * |xs|
  {
    if xs == [] {
    } else {
      SumBetween(xs[..|xs| - 1], lo, hi);
      ProductStep(lo, |xs| - 1);
      ProductStep(hi, |xs| - 1);
    }
  }

  /** The sum of a frame is the sum of its parts, down to single channels. */
  lemma {:induction false} SumAdds(a: seq<Sample>, b: seq<Sample>)
    ensures SumOf(a + b) == SumOf(a) + SumOf(b)
    ensures |b| == 1 ==> SumOf(b) == b[0]
  {
    if b == [] {
      assert a + b == a;
    } else {
      assert (a + b)[..|a + b| - 1] == a + b[..|b| - 1];
      SumAdds(a, b[..|b| - 1]);
    }
  }

  lemma DivisionBounds(sum: int, n: nat, lo: int, hi: int)
    requires n > 0 && lo * n <= sum <= hi * n
    ensures lo <= sum / n <= hi
  {
    var q, r := sum / n, sum % n;
    assert sum == q * n + r;
    ProductStep(hi, n);
    ProductStep(q, n);
    if q > hi {
      ProductMonotone(hi + 1, q, n);
    }
    if q < lo {
      ProductMonotone(q + 1, lo, n);
    }
  }

  lemma NegatedProducts(lo: int, hi: int, n: nat)
    ensures (-hi) * n == -(hi * n) && (-lo) * n == -(lo * n)
  {
  }

  /** The average lies between the smallest and the largest channel, so the clamps after it never fire. */
  lemma AverageBetween(frame: seq<Sample>, lo: int, hi: int)
    requires frame != [] && Within(frame, lo, hi) && -32768 <= lo && hi <= 32767
    ensures lo <= Quotient(SumOf(frame), |frame|) <= hi
    ensures DownmixFrame(frame) == Quotient(SumOf(frame), |frame|)
  {
    var sum, n := SumOf(frame), |frame|;
    SumBetween(frame, lo, hi);
    if sum >= 0 {
      DivisionBounds(sum, n, lo, hi);
    } else {
      NegatedProducts(lo, hi, n);
      DivisionBounds(-sum, n, -hi, -lo);
    }
  }

  lemma QuotientOf(sum: nat, n: nat)
    requires n > 0
    ensures sum / n * n <= sum < sum / n * n + n
  {
  }

  /** The average is the sum divided by the number of channels, rounded toward zero. */
  lemma AverageExactly(frame: seq<Sample>)
    requires frame != []
    ensures var avg, sum, n := DownmixFrame(frame) as int, SumOf(frame), |frame|;
      if sum >= 0 then avg * n <= sum < avg * n + n else -avg * n <= -sum < -avg * n + n
  {
    AverageBetween(frame, -32768, 32767);
    var sum, n := SumOf(frame), |frame|;
    QuotientOf(if sum >= 0 then sum else -sum, n);
  }

  lemma DownmixAppend(a: seq<Sample>, frame: seq<Sample>, channels: nat)
    requires channels > 0 && |frame| == channels
    ensures Downmix(a + frame, channels) == Downmix(a, channels) + [DownmixFrame(frame)]
  {
  }

  lemma AverageOfConstant(x: Sample, n: nat)
    requires n > 0
    ensures DownmixFrame(Mixing.Repeat(x, n)) == x
  {
    AverageBetween(Mixing.Repeat(x, n), x, x);
  }

  /** Frame f of a device buffer. */
  ghost function FrameAt(input: seq<Sample>, channels: nat, f: nat): seq<Sample>
    requires Mixing.Cells(f + 1, channels) <= |input|
  {
    input[Mixing.Cells(f, channels)..Mixing.Cells(f + 1, channels)]
  }

  lemma {:induction false} DownmixLength(input: seq<Sample>, frames: nat, channels: nat)
    requires channels > 0 && |input| == Mixing.Cells(frames, channels)
    ensures |Downmix(input, channels)| == frames
  {
    if frames == 0 {
    } else {
      DownmixLength(input[..|input| - channels], frames - 1, channels);
    }
  }

  lemma FrameOfAppend(front: seq<Sample>, last: seq<Sample>, frames: nat, channels: nat, f: nat)
    requires |front| == Mixing.Cells(frames, channels) && |last| == channels && f <= frames
    ensures Mixing.Cells(f + 1, channels) <= |front + last|
    ensures FrameAt(front + last, channels, f) ==
      if f < frames then Mixing.CellsMonotone(f + 1, frames, channels); FrameAt(front, channels, f) else last
  {
    Mixing.CellsMonotone(f + 1, frames + 1, channels);
    if f < frames {
      Mixing.CellsMonotone(f + 1, frames, channels);
    }
  }

  /** The downmix has one sample for each frame: the frame's average. */
  lemma {:induction false} DownmixAt(input: seq<Sample>, frames: nat, channels: nat, f: nat)
    requires channels > 0 && |input| == Mixing.Cells(frames, channels) && f < frames
    ensures |Downmix(input, channels)| == frames && Mixing.Cells(f + 1, channels) <= |input|
    ensures Downmix(input, channels)[f] == DownmixFrame(FrameAt(input, channels, f))
  {
    var front, last := input[..|input| - channels], input[|input| - channels..];
    assert input == front + last;
    DownmixLength(input, frames, channels);
    DownmixLength(front, frames - 1, channels);
    DownmixAppend(front, last, channels);
    FrameOfAppend(front, last, frames - 1, channels, f);
    if f < frames - 1 {
      DownmixAt(front, frames - 1, channels, f);
    }
  }

  /** Capturing what playback fanned out to any number of channels gives the mono samples back, negative ones included. */
  lemma {:induction false} DownmixOfInterleaved(mono: seq<Sample>, channels: nat)
    requires channels > 0
    ensures Downmix(Mixing.Interleaved(mono, channels), channels) == mono
  {
    if mono == [] {
    } else {
      var rest, x := mono[..|mono| - 1], mono[|mono| - 1];
      DownmixOfInterleaved(rest, channels);
      AverageOfConstant(x, channels);
      DownmixAppend(Mixing.Interleaved(rest, channels), Mixing.Repeat(x, channels), channels);
      assert mono == rest + [x];
      Mixing.InterleavedSnoc(rest, x, channels);
    }
  }

  // ---------------------------------------------------------------------------
  // Level and energy

  /** Settings that do not change between frames: the hangover time and the level curve, as a function of the sum of squares. */
  datatype Meter = Meter(hangover: uint32, decibels: nat -> real)

  const SILENT_DB := -90.0

  function Square(x: int): nat {
    x * x
  }

  function SumOfSquares(xs: seq<Sample>): nat {
    if xs == [] then 0 else SumOfSquares(xs[..|xs| - 1]) + Square(xs[|xs| - 1])
  }

  function ClampLevel(db: real): real {
    if db < SILENT_DB then SILENT_DB else if db > 0.0 then 0.0 else db
  }

  function Level(meter: Meter, sumOfSquares: nat): (db: real)
    ensures SILENT_DB <= db <= 0.0
  {
    ClampLevel(if sumOfSquares > 0 then meter.decibels(sumOfSquares) else SILENT_DB)
  }

  /** The 4-bit energy of a level. */
  function Energy(db: real): byte {
    var normalized := (db + 60.0) / 60.0;
    var clamped := if normalized < 0.0 then 0.0 else if normalized > 1.0 then 1.0 else normalized;
    (clamped * 15.0 + 0.5).Floor
  }

  /** The level reaches a threshold exactly when there is any signal and the curve puts it there. */
  lemma LevelReaches(meter: Meter, sumOfSquares: nat, threshold: real)
    requires -90.0 < threshold <= 0.0
    ensures Level(meter, sumOfSquares) >= threshold <==> sumOfSquares > 0 && meter.decibels(sumOfSquares) >= threshold
  {
  }

  lemma PowerOfOne(x: Sample)
    ensures SumOfSquares([x]) == (x as int) * (x as int)
  {
    assert [x][..0] == [];
  }

  /** The power of a frame is the sum of its parts' powers. */
  lemma {:induction false} PowerAdds(a: seq<Sample>, b: seq<Sample>)
    ensures SumOfSquares(a + b) == SumOfSquares(a) + SumOfSquares(b)
  {
    if b == [] {
      assert a + b == a;
    } else {
      assert (a + b)[..|a + b| - 1] == a + b[..|b| - 1];
      PowerAdds(a, b[..|b| - 1]);
    }
  }

  /** Only silence has no power. */
  lemma {:induction false} PowerIsZero(xs: seq<Sample>)
    ensures SumOfSquares(xs) == 0 <==> forall k :: 0 <= k < |xs| ==> xs[k] == 0
  {
    if xs == [] {
    } else {
      var x: int := xs[|xs| - 1];
      PowerIsZero(xs[..|xs| - 1]);
      assert x != 0 ==> Square(x) > 0;
    }
  }

  /** Between -60 and 0 dB the energy is the level above -60, in steps of 4 dB, to the nearest. */
  lemma EnergyNearest(db: real)
    requires -60.0 <= db <= 0.0
    ensures Energy(db) as real - 0.5 <= (db + 60.0) / 4.0 < Energy(db) as real + 0.5
  {
  }

  /** The energy fits the header's four bits and grows with the level, from 0 below -58 dB to 15 at -2 dB. */
  lemma EnergyShape(a: real, b: real)
    ensures Energy(a) <= 15
    ensures a <= b ==> Energy(a) <= Energy(b)
    ensures Energy(a) == 0 <==> a < -58.0
    ensures Energy(a) == 15 <==> a >= -2.0
  {
  }

  // ---------------------------------------------------------------------------
  // The microphone as a state machine

  datatype Mic = Mic(capturing: bool, muted: bool, vad: bool, threshold: real, pressed: bool, left: uint32, queue: seq<Sample>)

  datatype Frame = Frame(samples: seq<Sample>, level: real, speaking: bool, energy: byte)

  function Silence(): Frame {
    Frame(Zeros(SAMPLES_PER_FRAME), SILENT_DB, false, 0)
  }

  datatype Op =
    | Deliver(mono: seq<Sample>) // a hardware callback, after downmixing
    | Take(loopback: bool) // a request for a frame, with the loopback switch as it then is
    | SetCapturing(on: bool)
    | SetMuted(on: bool)
    | SetPressed(on: bool)
    | SetVad(on: bool, threshold: real)

  const FIRST := Mic(false, false, true, -45.0, false, 0, [])

  /** The request will not be answered by silence out of hand. */
  predicate Open(m: Mic, loopback: bool) {
    (m.capturing || loopback) && !m.muted
  }

  /** The request will be answered with hardware samples. */
  predicate Voiced(m: Mic, loopback: bool) {
    Open(m, loopback) && |m.queue| >= SAMPLES_PER_FRAME
  }

  function LevelOf(meter: Meter, m: Mic): real
    requires |m.queue| >= SAMPLES_PER_FRAME
  {
    Level(meter, SumOfSquares(m.queue[..SAMPLES_PER_FRAME]))
  }

  function EventOf(meter: Meter, m: Mic, op: Op): Hangover.Event {
    if !op.Take? || !Open(m, op.loopback) then Hangover.Skip
    else if |m.queue| < SAMPLES_PER_FRAME then Hangover.Underflow
    else if m.vad then Hangover.Detect(LevelOf(meter, m) >= m.threshold)
    else Hangover.Skip
  }

  /** The speech mark of a voiced frame. */
  predicate Speech(meter: Meter, m: Mic, loopback: bool) {
    if m.vad then Hangover.Step(meter.hangover, m.left, EventOf(meter, m, Take(loopback))).1 else m.pressed
  }

  /** The answer to a request. */
  function FrameOf(meter: Meter, m: Mic, loopback: bool): Frame {
    if !Voiced(m, loopback) then Silence()
    else Frame(m.queue[..SAMPLES_PER_FRAME], LevelOf(meter, m), Speech(meter, m, loopback), Energy(LevelOf(meter, m)))
  }

  function Apply(meter: Meter, m: Mic, op: Op): Mic {
    match op
    case Deliver(mono) => if m.capturing then m.(queue := PushedAll(m.queue, mono)) else m
    case Take(loopback) =>
      m.(left := Hangover.Step(meter.hangover, m.left, EventOf(meter, m, op)).0,
         queue := if Voiced(m, loopback) then m.queue[SAMPLES_PER_FRAME..] else m.queue)
    case SetCapturing(on) => m.(capturing := on)
    case SetMuted(on) => m.(muted := on)
    case SetPressed(on) => m.(pressed := on)
    case SetVad(on, threshold) => m.(vad := on, threshold := threshold)
  }

  /** The samples are loud enough for the threshold; the level is never below -90 dB nor above 0 dB. */
  ghost predicate Loud(meter: Meter, samples: seq<Sample>, threshold: real) {
    threshold <= -90.0 ||
    (threshold <= 0.0 && SumOfSquares(samples) > 0 && meter.decibels(SumOfSquares(samples)) >= threshold)
  }

  /** A request that is neither idle nor muted. */
  ghost predicate Live(m: Mic, op: Op) {
    op.Take? && (m.capturing || op.loopback) && !m.muted
  }

  /** What the detector is to be told, from the samples and the switches alone. */
  ghost predicate Told(meter: Meter, m: Mic, op: Op, e: Hangover.Event) {
    && (e.Detect? <==> Live(m, op) && m.vad && |m.queue| >= 960)
    && (e.Detect? ==> (e.loud <==> Loud(meter, m.queue[..960], m.threshold)))
    && (e.Underflow? <==> Live(m, op) && |m.queue| < 960)
  }

  lemma EventExactly(meter: Meter, m: Mic, op: Op)
    ensures Told(meter, m, op, EventOf(meter, m, op))
  {
    if |m.queue| >= 960 && -90.0 < m.threshold <= 0.0 {
      LevelReaches(meter, SumOfSquares(m.queue[..960]), m.threshold);
    }
  }

  /** The answer is silence unless the microphone is open and has a frame; then it is the frame, at its level. */
  lemma AnswerExactly(meter: Meter, m: Mic, loopback: bool, threshold: real)
    requires -90.0 < threshold <= 0.0
    ensures var f, voiced := FrameOf(meter, m, loopback), Live(m, Take(loopback)) && |m.queue| >= 960;
      && f.samples == (if voiced then m.queue[..960] else Zeros(960))
      && (f.level >= threshold <==>
           voiced && SumOfSquares(f.samples) > 0 && meter.decibels(SumOfSquares(f.samples)) >= threshold)
      && -90.0 <= f.level <= 0.0 && f.energy == Energy(f.level)
      && (!voiced ==> !f.speaking)
  {
    if Voiced(m, loopback) {
      LevelReaches(meter, SumOfSquares(m.queue[..960]), threshold);
    }
  }

  ghost predicate Execution(meter: Meter, mics: seq<Mic>, ops: seq<Op>) {
    && |mics| == |ops| + 1
    && mics[0] == FIRST
    && forall i :: 0 <= i < |ops| ==> mics[i + 1] == Apply(meter, mics[i], ops[i])
  }

  // ---------------------------------------------------------------------------
  // Speech detection over whole runs

  ghost function Events(meter: Meter, mics: seq<Mic>, ops: seq<Op>, n: nat): (es: seq<Hangover.Event>)
    requires n <= |ops| <= |mics|
    ensures |es| == n
    ensures forall i :: 0 <= i < n ==> es[i] == EventOf(meter, mics[i], ops[i])
  {
    if n == 0 then [] else Events(meter, mics, ops, n - 1) + [EventOf(meter, mics[n - 1], ops[n - 1])]
  }

  lemma EventsPrefix(meter: Meter, mics: seq<Mic>, ops: seq<Op>, i: nat, n: nat)
    requires i <= n <= |ops| <= |mics|
    ensures Events(meter, mics, ops, n)[..i] == Events(meter, mics, ops, i)
  {
  }

  lemma CounterStep(meter: Meter, m: Mic, op: Op)
    ensures Apply(meter, m, op).left == Hangover.Step(meter.hangover, m.left, EventOf(meter, m, op)).0
  {
  }

  lemma {:induction false} CounterFollows(meter: Meter, mics: seq<Mic>, ops: seq<Op>, n: nat)
    requires Execution(meter, mics, ops) && n <= |ops|
    ensures mics[n].left == Hangover.Counter(meter.hangover, Events(meter, mics, ops, n))
  {
    if n == 0 {
    } else {
      CounterFollows(meter, mics, ops, n - 1);
      CounterStep(meter, mics[n - 1], ops[n - 1]);
      Hangover.CounterAppend(meter.hangover, Events(meter, mics, ops, n - 1), EventOf(meter, mics[n - 1], ops[n - 1]));
    }
  }

  /**
  Over any run of callbacks, requests and switch changes: a frame is marked as speech exactly when it carries hardware
  samples and, in push-to-talk mode, the key is down, or else, in voice-activation mode, a loud frame lies within the
  hangover window with no underflow since.
  */
  lemma SpeechExactly(meter: Meter, mics: seq<Mic>, ops: seq<Op>, i: nat)
    requires Execution(meter, mics, ops) && i < |ops| && ops[i].Take?
    ensures var es := Events(meter, mics, ops, |ops|);
      FrameOf(meter, mics[i], ops[i].loopback).speaking <==>
        Live(mics[i], ops[i]) && |mics[i].queue| >= 960 &&
        if mics[i].vad then exists j :: 0 <= j <= i && Hangover.Covers(es, j, i, meter.hangover / 20)
        else mics[i].pressed
    ensures forall j :: 0 <= j < |ops| ==> Told(meter, mics[j], ops[j], Events(meter, mics, ops, |ops|)[j])
  {
    forall j | 0 <= j < |ops| ensures Told(meter, mics[j], ops[j], Events(meter, mics, ops, |ops|)[j]) {
      EventExactly(meter, mics[j], ops[j]);
    }
    if Voiced(mics[i], ops[i].loopback) && mics[i].vad {
      CounterFollows(meter, mics, ops, i);
      EventsPrefix(meter, mics, ops, i, |ops|);
      Hangover.SpeakingIsWindow(meter.hangover, Events(meter, mics, ops, |ops|), i);
    }
  }

  // ---------------------------------------------------------------------------
  // Switches over whole runs

  /** The operation sets a switch that `setting` sets as well. */
  predicate Overrides(op: Op, setting: Op) {
    match setting
    case SetCapturing(_) => op.SetCapturing?
    case SetMuted(_) => op.SetMuted?
    case SetPressed(_) => op.SetPressed?
    case SetVad(_, _) => op.SetVad?
    case _ => false
  }

  /** The switch stands as `setting` set it. */
  predicate Stands(m: Mic, setting: Op) {
    match setting
    case SetCapturing(on) => m.capturing == on
    case SetMuted(on) => m.muted == on
    case SetPressed(on) => m.pressed == on
    case SetVad(on, threshold) => m.vad == on && m.threshold == threshold
    case _ => true
  }

  /** A switch stays as it was last set, whatever is delivered and requested. */
  lemma {:induction false} SwitchStays(meter: Meter, mics: seq<Mic>, ops: seq<Op>, j: nat, i: nat)
    requires Execution(meter, mics, ops) && j < i <= |ops|
    requires forall k :: j < k < i ==> !Overrides(ops[k], ops[j])
    ensures Stands(mics[i], ops[j])
  {
    if i == j + 1 {
    } else {
      SwitchStays(meter, mics, ops, j, i - 1);
    }
  }

  lemma {:induction false} StaysMuted(meter: Meter, mics: seq<Mic>, ops: seq<Op>, j: nat, i: nat)
    requires Execution(meter, mics, ops) && j < i <= |ops| && ops[j] == SetMuted(true)
    requires forall k :: j < k < i ==> ops[k] != SetMuted(false)
    ensures mics[i].muted
  {
    if i == j + 1 {
    } else {
      StaysMuted(meter, mics, ops, j, i - 1);
    }
  }

  /** From a mute to the next unmute every request is answered by silence that is not marked as speech. */
  lemma MutedMicIsSilent(meter: Meter, mics: seq<Mic>, ops: seq<Op>, j: nat, i: nat)
    requires Execution(meter, mics, ops) && j < i < |ops| && ops[j] == SetMuted(true) && ops[i].Take?
    requires forall k :: j < k < i ==> ops[k] != SetMuted(false)
    ensures var f := FrameOf(meter, mics[i], ops[i].loopback);
      f.samples == Zeros(960) && f.level == -90.0 && !f.speaking && f.energy == 0
  {
    StaysMuted(meter, mics, ops, j, i);
  }

  // ---------------------------------------------------------------------------
  // The samples over whole runs

  /** Everything the hardware delivered while capturing was on. */
  ghost function Delivered(mics: seq<Mic>, ops: seq<Op>, n: nat): seq<Sample>
    requires n <= |ops| <= |mics|
  {
    if n == 0 then []
    else Delivered(mics, ops, n - 1) +
         if ops[n - 1].Deliver? && mics[n - 1].capturing then ops[n - 1].mono else []
  }

  /** The operation as the capture ring sees it. */
  function BatchOf(m: Mic, op: Op): Batch {
    match op
    case Deliver(mono) => if m.capturing then Write(mono) else Read(0)
    case Take(loopback) => Read(if Voiced(m, loopback) then SAMPLES_PER_FRAME else 0)
    case _ => Read(0)
  }

  ghost function Streams(mics: seq<Mic>, ops: seq<Op>): (r: seq<seq<Sample>>)
    requires |mics| == |ops| + 1
    ensures |r| == |mics| && forall i :: 0 <= i < |mics| ==> r[i] == Delivered(mics, ops, i)
  {
    seq(|mics|, i requires 0 <= i < |mics| => Delivered(mics, ops, i))
  }

  function Queues(mics: seq<Mic>): (r: seq<seq<Sample>>)
    ensures |r| == |mics| && forall i :: 0 <= i < |mics| ==> r[i] == mics[i].queue
  {
    seq(|mics|, i requires 0 <= i < |mics| => mics[i].queue)
  }

  function Batches(mics: seq<Mic>, ops: seq<Op>): (r: seq<Batch>)
    requires |mics| == |ops| + 1
    ensures |r| == |ops| && forall i :: 0 <= i < |ops| ==> r[i] == BatchOf(mics[i], ops[i])
  {
    seq(|ops|, i requires 0 <= i < |ops| => BatchOf(mics[i], ops[i]))
  }

  /** The delivered stream beside the capture queue. */
  ghost function LaneOf(mics: seq<Mic>, ops: seq<Op>): Lane
    requires |mics| == |ops| + 1
  {
    Lane(Streams(mics, ops), Queues(mics), Batches(mics, ops))
  }

  lemma QueueStep(meter: Meter, m: Mic, op: Op)
    ensures Apply(meter, m, op).queue == QueueAfter(m.queue, BatchOf(m, op))
  {
  }

  /** From the start on, nothing but the callbacks and the voiced frames touches the capture ring. */
  lemma MicFlows(meter: Meter, mics: seq<Mic>, ops: seq<Op>)
    requires Execution(meter, mics, ops)
    ensures Flow(LaneOf(mics, ops), 0, |ops|) && Position(LaneOf(mics, ops), 0) == 0
  {
    var lane := LaneOf(mics, ops);
    forall i: nat | i < |ops| ensures Turn(lane, i) {
      QueueStep(meter, mics[i], ops[i]);
    }
  }

  /** The unread samples are always the latest delivered ones. */
  lemma UnreadIsLatestDelivered(meter: Meter, mics: seq<Mic>, ops: seq<Op>, i: nat)
    requires Execution(meter, mics, ops) && i <= |ops|
    ensures Latest(Delivered(mics, ops, i), mics[i].queue)
  {
    MicFlows(meter, mics, ops);
    FlowFrom(LaneOf(mics, ops), 0, i, |ops|);
    QueueIsLatest(LaneOf(mics, ops), 0, i);
  }

  /** A voiced frame is the next 960 samples of the delivered stream. */
  lemma FrameIsNextPiece(meter: Meter, mics: seq<Mic>, ops: seq<Op>, i: nat)
    requires Execution(meter, mics, ops) && i < |ops| && ops[i].Take? && Voiced(mics[i], ops[i].loopback)
    ensures var lane := LaneOf(mics, ops);
      && Position(lane, i + 1) == Position(lane, i) + SAMPLES_PER_FRAME
      && Between(Delivered(mics, ops, |ops|), Position(lane, i), Position(lane, i + 1),
                 FrameOf(meter, mics[i], ops[i].loopback).samples)
  {
    var lane := LaneOf(mics, ops);
    MicFlows(meter, mics, ops);
    FlowFrom(lane, 0, i, |ops|);
    FlowFrom(lane, i, i + 1, |ops|);
    PositionStep(lane, i);
    ReadIsNextPiece(lane, i, |ops|);
  }

  /**
  Voiced frames cut the delivered stream into pieces that never overlap and never swap: the earlier frame ends before
  the later one begins.
  */
  lemma FramesInOrder(meter: Meter, mics: seq<Mic>, ops: seq<Op>, i: nat, j: nat)
    requires Execution(meter, mics, ops) && i < j < |ops| && ops[i].Take? && Voiced(mics[i], ops[i].loopback)
    ensures Position(LaneOf(mics, ops), i) + SAMPLES_PER_FRAME <= Position(LaneOf(mics, ops), j)
  {
    var lane := LaneOf(mics, ops);
    MicFlows(meter, mics, ops);
    FlowFrom(lane, 0, i, |ops|);
    FlowFrom(lane, i, j, |ops|);
    PiecesInOrder(lane, i, j);
  }

  /** The capture ring finds room for what each of the callbacks delivers. */
  ghost predicate CallbacksFit(mics: seq<Mic>, ops: seq<Op>)
    requires |mics| == |ops| + 1
  {
    forall i: nat :: i < |ops| && ops[i].Deliver? && mics[i].capturing ==> |mics[i].queue| + |ops[i].mono| < RING_SIZE
  }

  lemma RoomAgrees(meter: Meter, mics: seq<Mic>, ops: seq<Op>)
    requires Execution(meter, mics, ops)
    ensures AlwaysRoom(LaneOf(mics, ops), 0, |ops|) <==> CallbacksFit(mics, ops)
  {
    var lane := LaneOf(mics, ops);
    forall i: nat | i < |ops|
      ensures Room(lane, i) <==>
        (ops[i].Deliver? && mics[i].capturing ==> |mics[i].queue| + |ops[i].mono| < RING_SIZE)
    {
      UnreadIsLatestDelivered(meter, mics, ops, i);
      assert lane.batches[i] == BatchOf(mics[i], ops[i]);
    }
  }

  /**
  The voiced frames laid end to end are everything delivered but what is still unread, exactly when every callback
  found room in the ring; otherwise whole multiples of the ring size are missing.
  */
  lemma FramesGapless(meter: Meter, mics: seq<Mic>, ops: seq<Op>)
    requires Execution(meter, mics, ops)
    ensures var lane, n := LaneOf(mics, ops), |ops|;
      && WholeRings(Lost(lane, 0, n))
      && (Between(Delivered(mics, ops, n), 0, Position(lane, n), Played(lane, 0, n)) <==> CallbacksFit(mics, ops))
  {
    var lane, n := LaneOf(mics, ops), |ops|;
    MicFlows(meter, mics, ops);
    LostExactly(lane, 0, n);
    PlayedExactly(lane, 0, n);
    RoomAgrees(meter, mics, ops);
    assert lane.streams[n] == Delivered(mics, ops, n);
  }
}
