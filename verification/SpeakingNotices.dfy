/** What the control plane is told about a session's speech, over any run of its accepted voice packets. */
module SpeakingNotices {
  import opened Basics
  import opened SessionIndex
  import opened Handlers
  import opened PacketCodec
  import opened Router

  /** The session's fields after one more accepted packet. */
  ghost function Recorded(info: Info, p: Fields): Info {
    info.(isSpeaking := p.vad, energyLevel := p.energy)
  }

  ghost function InfoAfter(info: Info, packets: seq<Fields>): Info {
    if packets == [] then info else Recorded(InfoAfter(info, packets[..|packets| - 1]), packets[|packets| - 1])
  }

  /** All notices sent for the packets, in order. */
  ghost function NoticesOf(info: Info, packets: seq<Fields>): seq<Notice> {
    if packets == [] then []
    else
      var front, last := packets[..|packets| - 1], packets[|packets| - 1];
      NoticesOf(info, front) + NoticeOf(InfoAfter(info, front), last)
  }

  /** The speaking bit that someone who saw only the notices believes. */
  ghost function Believed(start: bool, notices: seq<Notice>): bool {
    if notices == [] then start else notices[|notices| - 1].speaking
  }

  /** Voice packets that a session of the index accepts leave it as recorded here. */
  lemma RecordedByVoice<R>(s: State<R>, p: Fields, src: Address, now: int)
    requires Sound(s) && VoiceError(s, VoiceOf(p, src)) == None
    ensures var t := AfterVoice(s, VoiceOf(p, src), now);
      InfoOf(t, p.senderId) == Recorded(InfoOf(s, p.senderId), p).(addr := Some(src), lastSeen := now)
  {
    VoiceRecorded(s, VoiceOf(p, src), now);
  }

  /** A notice says who, where, and what, as the packet does; it is sent when the bit flips or the level jumps by three. */
  lemma NoticeExactly(before: Info, p: Fields)
    ensures var n := NoticeOf(before, p);
      && |n| <= 1
      && (n == [] <==> before.isSpeaking == p.vad && p.energy - before.energyLevel < 3 && before.energyLevel - p.energy < 3)
      && (n != [] ==>
           n[0].channel == p.channelId && n[0].user == p.senderId && n[0].speaking == p.vad && n[0].energy == p.energy)
  {
  }

  /** Whatever the packets, the notices alone always show whether the session is speaking. */
  lemma {:induction false} SpeakingIsShown(info: Info, packets: seq<Fields>)
    ensures Believed(info.isSpeaking, NoticesOf(info, packets)) == InfoAfter(info, packets).isSpeaking
  {
    if packets == [] {
    } else {
      var front, last := packets[..|packets| - 1], packets[|packets| - 1];
      SpeakingIsShown(info, front);
      NoticeExactly(InfoAfter(info, front), last);
    }
  }

  /** The bit stays as it was and the level moves by two steps at most. */
  ghost predicate Small(before: Info, p: Fields) {
    before.isSpeaking == p.vad && -2 <= p.energy - before.energyLevel <= 2
  }

  ghost predicate Creeps(info: Info, packets: seq<Fields>) {
    forall k: nat :: k < |packets| ==> Small(InfoAfter(info, packets[..k]), packets[k])
  }

  lemma CreepsAppend(info: Info, front: seq<Fields>, last: Fields)
    ensures Creeps(info, front + [last]) <==> Creeps(info, front) && Small(InfoAfter(info, front), last)
  {
    var packets := front + [last];
    forall k: nat | k < |front| ensures packets[..k] == front[..k] && packets[k] == front[k] {
    }
    assert packets[..|front|] == front && packets[|front|] == last;
    if Creeps(info, packets) {
      forall k: nat | k < |front| ensures Small(InfoAfter(info, front[..k]), front[k]) {
        assert Small(InfoAfter(info, packets[..k]), packets[k]);
      }
      assert Small(InfoAfter(info, packets[..|front|]), packets[|front|]);
    }
  }

  lemma QuietAppend(info: Info, front: seq<Fields>, last: Fields)
    ensures NoticesOf(info, front + [last]) == [] <==> NoticesOf(info, front) == [] && Small(InfoAfter(info, front), last)
  {
    assert (front + [last])[..|front|] == front;
    NoticeExactly(InfoAfter(info, front), last);
  }

  /** There is no notice at all exactly when the bit stays and the level never jumps, however far it gets that way. */
  lemma {:induction false} QuietExactly(info: Info, packets: seq<Fields>)
    ensures NoticesOf(info, packets) == [] <==> Creeps(info, packets)
  {
    if packets == [] {
    } else {
      var front, last := packets[..|packets| - 1], packets[|packets| - 1];
      assert packets == front + [last];
      QuietExactly(info, front);
      QuietAppend(info, front, last);
      CreepsAppend(info, front, last);
    }
  }

  lemma LevelAfter(info: Info, packets: seq<Fields>)
    ensures packets != [] ==>
      var last := packets[|packets| - 1];
      InfoAfter(info, packets).isSpeaking == last.vad && InfoAfter(info, packets).energyLevel == last.energy
  {
  }

  /** A level that creeps from 0 to 14 in steps of two is never shown. */
  lemma UnseenRiseExample(info: Info)
    requires info.isSpeaking && info.energyLevel == 0
    ensures var packets := seq(7, k requires 0 <= k < 7 => BLANK.(vad := true, energy := 2 * k + 2));
      NoticesOf(info, packets) == [] && InfoAfter(info, packets).energyLevel == 14
  {
    var packets := seq(7, k requires 0 <= k < 7 => BLANK.(vad := true, energy := 2 * k + 2));
    forall k | 0 <= k < 7
      ensures var before := InfoAfter(info, packets[..k]); before.isSpeaking && before.energyLevel == 2 * k
    {
      LevelAfter(info, packets[..k]);
    }
    QuietExactly(info, packets);
  }
}
