/** The speech detector's hangover counter (client/native/libvoice_engine.c), frame by frame. */
module Hangover {
  import opened Basics

  const FRAME_MS: uint32 := 20

  /** What a call for one captured frame does to the counter. */
  datatype Event =
    | Detect(loud: bool) // a processed frame in voice-activation mode
    | Underflow // not enough hardware samples
    | Skip // idle, muted or push to talk

  /** The counter after a frame, and whether the detector calls it speech. */
  function Step(hangover: uint32, left: uint32, e: Event): (uint32, bool) {
    match e
    case Detect(loud) =>
      if loud then (hangover, true)
      else if left >= FRAME_MS then (left - FRAME_MS, true)
      else (0, false)
    case Underflow => (0, false)
    case Skip => (left, false)
  }

  /** The counter after a whole run from zero. */
  function Counter(hangover: uint32, es: seq<Event>): uint32 {
    if es == [] then 0 else Step(hangover, Counter(hangover, es[..|es| - 1]), es[|es| - 1]).0
  }

  lemma CounterAppend(hangover: uint32, es: seq<Event>, e: Event)
    ensures Counter(hangover, es + [e]) == Step(hangover, Counter(hangover, es), e).0
  {
    assert (es + [e])[..|es|] == es;
  }

  predicate Speaking(hangover: uint32, es: seq<Event>, i: nat)
    requires i < |es|
  {
    Step(hangover, Counter(hangover, es[..i]), es[i]).1
  }

  // ---------------------------------------------------------------------------
  // The window the counter stands for

  /** Frames the detector looked at. */
  function Detections(es: seq<Event>): nat {
    if es == [] then 0 else Detections(es[..|es| - 1]) + if es[|es| - 1].Detect? then 1 else 0
  }

  /** Frame j is loud, the detector has looked at no more than `window` frames from j up to i, and no underflow between. */
  ghost predicate Covers(es: seq<Event>, j: nat, i: nat, window: nat)
    requires j <= i < |es|
  {
    && es[j] == Detect(true)
    && (forall k :: j < k < i ==> es[k] != Underflow)
    && Detections(es[j..i]) <= window
  }

  /** Quiet frames the detector has seen since the last loud one; none if there was none or an underflow came after it. */
  function QuietSince(es: seq<Event>): Option<nat> {
    if es == [] then None
    else
      var q, e := QuietSince(es[..|es| - 1]), es[|es| - 1];
      match e
      case Detect(loud) => if loud then Some(0) else if q.Some? then Some(q.value + 1) else None
      case Underflow => None
      case Skip => q
  }

  /** The counter is the hangover time less one frame for each quiet frame, down to zero. */
  lemma {:induction false} CounterExactly(hangover: uint32, es: seq<Event>)
    ensures Counter(hangover, es) as int ==
            match QuietSince(es)
            case None => 0
            case Some(q) => if FRAME_MS * q <= hangover then hangover - FRAME_MS * q else 0
  {
    if es == [] {
    } else {
      CounterExactly(hangover, es[..|es| - 1]);
    }
  }

  /** The last loud frame with no underflow after it, counted in detections. */
  ghost predicate LastLoud(es: seq<Event>, j: nat, q: nat)
    requires j < |es|
  {
    && es[j] == Detect(true)
    && (forall k :: j < k < |es| ==> es[k] != Underflow && es[k] != Detect(true))
    && Detections(es[j..]) == q + 1
  }

  ghost predicate UnderflowAfter(es: seq<Event>, k: nat) {
    exists u :: k < u < |es| && es[u] == Underflow
  }

  /** What QuietSince counts from: the last loud frame, if no underflow came after it. */
  lemma {:induction false} QuietSinceFinds(es: seq<Event>) returns (j: nat)
    ensures QuietSince(es).Some? ==> j < |es| && LastLoud(es, j, QuietSince(es).value)
    ensures QuietSince(es).None? ==> forall k :: 0 <= k < |es| && es[k] == Detect(true) ==> UnderflowAfter(es, k)
  {
    j := 0;
    if es == [] {
    } else {
      var n := |es| - 1;
      var past := es[..n];
      var k := QuietSinceFinds(past);
      if es[n] == Detect(true) {
        j := n;
        assert es[n..] == [es[n]] && [es[n]][..0] == [];
      } else if QuietSince(es).Some? {
        j := k;
        assert es[k..][..n - k] == past[k..];
      } else {
        forall i | 0 <= i < |es| && es[i] == Detect(true) ensures UnderflowAfter(es, i) {
          if es[n] != Underflow {
            assert past[i] == Detect(true);
            var u :| i < u < n && past[u] == Underflow;
            assert es[u] == Underflow;
          }
        }
      }
    }
  }

  /** Detections add up along a run. */
  lemma {:induction false} DetectionsSplit(es: seq<Event>, i: nat)
    requires i <= |es|
    ensures Detections(es) == Detections(es[..i]) + Detections(es[i..])
  {
    if i == |es| {
      assert es[..i] == es;
    } else {
      DetectionsSplit(es[..|es| - 1], i);
      assert es[i..][..|es| - 1 - i] == es[..|es| - 1][i..];
      assert es[..|es| - 1][..i] == es[..i];
    }
  }

  /** If any loud frame covers frame i, then the last one does. */
  lemma EarlierCovers(es: seq<Event>, j: nat, last: nat, i: nat, window: nat)
    requires j < i < |es| && Covers(es, j, i, window)
    requires QuietSince(es[..i]).Some? ==> last < i && LastLoud(es[..i], last, QuietSince(es[..i]).value)
    requires QuietSince(es[..i]).None? ==>
      forall k :: 0 <= k < i && es[..i][k] == Detect(true) ==> UnderflowAfter(es[..i], k)
    ensures QuietSince(es[..i]).Some? && Covers(es, last, i, window)
  {
    var past := es[..i];
    assert past[j] == Detect(true);
    assert !UnderflowAfter(past, j);
    assert j <= last;
    assert es[j..i] == past[j..] && es[last..i] == past[last..];
    DetectionsSplit(past[j..], last - j);
    assert past[j..][last - j..] == past[last..];
  }

  /**
  The counter refines a window test: a frame the detector looks at is speech exactly when it, or one of the previous
  floor(hangover / 20) frames the detector looked at, is loud with no underflow in between.  Muted, idle and
  push-to-talk frames do not count towards the window.
  */
  lemma SpeakingIsWindow(hangover: uint32, es: seq<Event>, i: nat)
    requires i < |es| && es[i].Detect?
    ensures Speaking(hangover, es, i) <==> exists j :: 0 <= j <= i && Covers(es, j, i, hangover / FRAME_MS)
  {
    var past := es[..i];
    CounterExactly(hangover, past);
    var last := QuietSinceFinds(past);
    if es[i].loud {
      assert es[i..i] == [];
      assert Covers(es, i, i, hangover / FRAME_MS);
    } else {
      if QuietSince(past).Some? {
        assert es[last..i] == past[last..];
        assert FRAME_MS * (QuietSince(past).value + 1) <= hangover <==> Detections(es[last..i]) <= hangover / FRAME_MS;
        assert Covers(es, last, i, hangover / FRAME_MS) <==> Speaking(hangover, es, i);
      }
      forall j | 0 <= j <= i && Covers(es, j, i, hangover / FRAME_MS) ensures Speaking(hangover, es, i) {
        EarlierCovers(es, j, last, i, hangover / FRAME_MS);
      }
    }
  }
}
