/** The soundbox's message handler, and why it plays exactly what the service composed. */
module Soundbox {
  import opened Common
  import opened Text
  import opened Voice
  import Topics

  const QRIS_REPLY_PREFIX := "QR:"
  const QRIS_MAX_LEN := 512
  const ONE_SIZE := 128
  const READ_BUFFER := 1024

  // ----- the service's side ---------------------------------------------------------------

  function Path(c: Clip): string {
    "/ext/" + Name(c) + ".mp3"
  }

  function Paths(clips: seq<Clip>): (paths: seq<string>)
    ensures |paths| == |clips| && forall i :: 0 <= i < |clips| ==> paths[i] == Path(clips[i])
  {
    if clips == [] then [] else [Path(clips[0])] + Paths(clips[1..])
  }

  function Payload(rupiah: int): Option<string> {
    var clips := Compose(rupiah);
    if clips.None? then None else Some(Join(Paths(clips.value), '+'))
  }

  // ----- the firmware's side --------------------------------------------------------------

  /** What C string functions see of a received payload. */
  function CString(payload: string): string {
    payload[..IndexOf(payload, '\0')]
  }

  predicate HasPrefix(s: string, p: string) {
    |p| <= |s| && s[..|p|] == p
  }

  predicate Contains(s: string, sub: string) {
    exists i :: 0 <= i <= |s| && HasPrefix(s[i..], sub)
  }

  predicate IsQrReply(payload: string) {
    HasPrefix(CString(payload), QRIS_REPLY_PREFIX)
  }

  predicate IsAudio(payload: string) {
    !IsQrReply(payload) && Contains(CString(payload), ".mp3")
  }

  /** The piece up to the next '+', cut to what one[128] holds. */
  function FirstPiece(p: string): string {
    Topics.Printed(p[..IndexOf(p, '+')], ONE_SIZE)
  }

  /** Where the pointer goes next; None is NULL. */
  function RestOf(p: string): (r: Option<string>)
    ensures r.Some? ==> |r.value| < |p|
  {
    var i := IndexOf(p, '+');
    if i == |p| then None else Some(p[i + 1..])
  }

  /** The pieces of a buffer in order; nothing follows a final '+'. */
  function PlayList(s: string): seq<string>
    decreases |s|
  {
    if s == "" then []
    else [FirstPiece(s)] + if RestOf(s).Some? then PlayList(RestOf(s).value) else []
  }

  function Remaining(p: Option<string>): seq<string> {
    if p.Some? then PlayList(p.value) else []
  }

  lemma RemainingStep(p: string)
    requires p != ""
    ensures PlayList(p) == [FirstPiece(p)] + Remaining(RestOf(p))
  {
  }

  lemma RemainingNothing()
    ensures PlayList("") == []
  {
  }

  class Soundbox {
    var qrisReply: string
    var qrisReplyReady: bool
    var qrisPaid: bool
    var played: seq<string>      // paths handed to the audio player, in order
    var spoken: seq<string>      // texts read aloud
    var screen: string

    constructor ()
      ensures !qrisReplyReady && !qrisPaid && played == [] && spoken == []
    {
      qrisReply, qrisReplyReady, qrisPaid, played, spoken, screen := "", false, false, [], [], "";
    }

    /** The splitter: pStart points at the rest of the buffer (None is NULL), and each piece is
        copied into one[128] and played. */
    method PlayPieces(buf: string)
      modifies this`played
      ensures played == old(played) + PlayList(buf)
    {
      hide PlayList, FirstPiece;
      var pStart := Some(buf);
      while pStart.Some? && pStart.value != ""
        invariant old(played) + PlayList(buf) == played + Remaining(pStart)
        decreases if pStart.Some? then |pStart.value| + 1 else 0
      {
        RemainingStep(pStart.value);
        var one := FirstPiece(pStart.value);
        pStart := RestOf(pStart.value);
        played := played + [one];
      }
      RemainingNothing();
    }

    method OnTopicMessageArrived(payload: string)
      modifies this
      ensures IsQrReply(payload) ==>
                && qrisReplyReady && qrisReply == Topics.Printed(CString(payload)[3..], QRIS_MAX_LEN)
                && unchanged(`qrisPaid) && unchanged(`played) && unchanged(`spoken) && unchanged(`screen)
      ensures IsAudio(payload) ==>
                && qrisPaid && played == old(played) + PlayList(CString(payload)) && screen == CString(payload)
                && unchanged(`qrisReply) && unchanged(`qrisReplyReady) && unchanged(`spoken)
      ensures payload != "" && !IsQrReply(payload) && !IsAudio(payload) ==>
                && spoken == old(spoken) + [CString(payload)] && screen == CString(payload)
                && unchanged(`qrisReply) && unchanged(`qrisReplyReady) && unchanged(`qrisPaid) && unchanged(`played)
      ensures payload == "" ==> unchanged(this)
    {
      if |payload| == 0 { return; }
      var buf := CString(payload);
      if HasPrefix(buf, QRIS_REPLY_PREFIX) {
        var qr := buf[|QRIS_REPLY_PREFIX|..];
        qrisReply := Topics.Printed(qr, QRIS_MAX_LEN);
        qrisReplyReady := true;
        return;
      }
      if Contains(buf, ".mp3") {
        qrisPaid := true;
        PlayPieces(buf);
      } else {
        spoken := spoken + [buf];
      }
      screen := buf;
    }
  }

  // ----- what the device plays is what was composed ---------------------------------------

  predicate Clean(s: string) {
    forall i :: 0 <= i < |s| ==> s[i] != '+' && s[i] != '\0'
  }

  lemma NameIsClean(c: Clip)
    ensures Clean(Name(c)) && 3 <= |Name(c)| <= 14
  {
  }

  lemma PathIsClean(c: Clip)
    ensures Clean(Path(c)) && 12 <= |Path(c)| <= 23
    ensures Path(c)[0] == '/' && Path(c)[|Path(c)| - 4..] == ".mp3"
  {
    NameIsClean(c);
  }

  /** One piece in front: the splitter takes it off and goes on with the rest. */
  lemma PlayListStep(first: string, tail: string)
    requires '+' !in first && 0 < |first| < ONE_SIZE
    ensures PlayList(first) == [first]
    ensures PlayList(first + ['+'] + tail) == [first] + PlayList(tail)
  {
    IndexOfFirst(first, '+', tail);
    var s := first + ['+'] + tail;
    assert s[..|first|] == first && s[|first| + 1..] == tail;
    assert first[..|first|] == first;
  }

  /** A piece is played uncut exactly if it has at most 127 characters. */
  lemma PieceIsWhole(first: string, tail: string)
    requires '+' !in first
    ensures FirstPiece(first + ['+'] + tail) == first <==> |first| <= 127
  {
    IndexOfFirst(first, '+', tail);
    assert (first + ['+'] + tail)[..|first|] == first;
  }

  lemma ContainsSuffix(a: string, b: string, sub: string)
    requires |sub| <= |a| && a[|a| - |sub|..] == sub
    ensures Contains(a + b, sub)
  {
    var i := |a| - |sub|;
    assert (a + b)[i..][..|sub|] == a[i..];
    assert HasPrefix((a + b)[i..], sub);
  }

  /** Splitting what was joined gives the pieces back. */
  lemma {:induction false} PlayListJoin(paths: seq<string>)
    requires paths != [] && forall i :: 0 <= i < |paths| ==> Clean(paths[i]) && 0 < |paths[i]| < ONE_SIZE
    ensures PlayList(Join(paths, '+')) == paths && '\0' !in Join(paths, '+')
    ensures exists tail :: Join(paths, '+') == paths[0] + tail
    decreases |paths|
  {
    hide PlayList;
    var first, rest := paths[0], paths[1..];
    assert Clean(first);
    if |paths| == 1 {
      PlayListStep(first, "");
      assert Join(paths, '+') == first + "";
    } else {
      PlayListJoin(rest);
      var tail := Join(rest, '+');
      assert Join(paths, '+') == first + (['+'] + tail);
      PlayListStep(first, tail);
    }
  }

  /** The composed payload, as the firmware takes it. */
  lemma PayloadIsAudio(clips: seq<Clip>)
    requires clips != []
    ensures var s := Join(Paths(clips), '+');
            PlayList(s) == Paths(clips) && CString(s) == s && IsAudio(s) && !IsQrReply(s)
  {
    var paths := Paths(clips);
    forall i | 0 <= i < |paths| ensures Clean(paths[i]) && 0 < |paths[i]| < ONE_SIZE { PathIsClean(clips[i]); }
    PlayListJoin(paths);
    var s := Join(paths, '+');
    NoTerminator(s);
    PathIsClean(clips[0]);
    var tail :| s == paths[0] + tail;
    ContainsSuffix(paths[0], tail, ".mp3");
    assert s[0] == '/';
  }

  lemma NoTerminator(s: string)
    requires '\0' !in s
    ensures CString(s) == s
  {
    assert IndexOf(s, '\0') == |s|;
  }

  /** Characters of the clips' paths, one separator each. */
  function Cost(clips: seq<Clip>): nat {
    if clips == [] then 0 else |Path(clips[0])| + 1 + Cost(clips[1..])
  }

  lemma {:induction false} CostConcat(a: seq<Clip>, b: seq<Clip>)
    ensures Cost(a + b) == Cost(a) + Cost(b)
    decreases |a|
  {
    if a == [] {
      assert a + b == b;
    } else {
      assert (a + b)[1..] == a[1..] + b;
      CostConcat(a[1..], b);
    }
  }

  lemma {:induction false} JoinLength(clips: seq<Clip>)
    requires clips != []
    ensures |Join(Paths(clips), '+')| == Cost(clips) - 1
    decreases |clips|
  {
    assert Paths(clips) == [Path(clips[0])] + Paths(clips[1..]);
    if |clips| > 1 {
      JoinLength(clips[1..]);
      assert Paths(clips)[1..] == Paths(clips[1..]);
    }
  }

  lemma CostOne(c: Clip)
    ensures Cost([c]) == |Path(c)| + 1
  {
    assert [c][1..] == [];
  }

  lemma CostTwo(c: Clip, d: Clip)
    ensures Cost([c, d]) == |Path(c)| + |Path(d)| + 2
  {
    assert [c, d][1..] == [d];
    CostOne(d);
  }

  lemma PathLengths()
    ensures |Path(Puluh)| == |Path(Belas)| == |Path(Ratus)| == 14 && |Path(Ribu)| == |Path(Juta)| == 13
    ensures |Path(Miliar)| == 15 && |Path(Seratus)| == 16 && |Path(Seribu)| == 15
    ensures |Path(Sepuluh)| == |Path(Sebelas)| == 16 && |Path(AwalQris)| == 18 && |Path(AkhirBerhasil)| == 23
  {
  }

  lemma DigitCost(d: int)
    requires 1 <= d <= 9
    ensures |Path(DigitClip(d))| <= 17
  {
  }

  lemma BelowHundredCost(n: int)
    requires 1 <= n < 100
    ensures Cost(BelowHundred(n)) <= 51
  {
    PathLengths();
    if n < 12 {
      if n < 10 { DigitCost(n); }
      CostOne(BelowHundred(n)[0]);
    } else if n < 20 {
      DigitCost(n - 10);
      CostTwo(DigitClip(n - 10), Belas);
    } else {
      DigitCost(n / 10);
      CostTwo(DigitClip(n / 10), Puluh);
      if n % 10 > 0 {
        DigitCost(n % 10);
        CostOne(DigitClip(n % 10));
        CostConcat([DigitClip(n / 10), Puluh], [DigitClip(n % 10)]);
      } else {
        assert BelowHundred(n) == [DigitClip(n / 10), Puluh];
      }
    }
  }

  /** The most the words of a number below 10^3, 10^6, 10^9 and 10^12 take. */
  function CostBound(n: int): nat {
    if n < 1_000 then 84 else if n < 1_000_000 then 182 else if n < 1_000_000_000 then 280 else 380
  }

  lemma {:induction false} NumberCost(n: int)
    requires 1 <= n <= MAX_RUPIAH
    ensures Cost(NumberClips(n)) <= CostBound(n)
    decreases n
  {
    PathLengths();
    if n < 100 {
      BelowHundredCost(n);
    } else if n < 1000 {
      var head := if n / 100 == 1 then [Seratus] else [DigitClip(n / 100), Ratus];
      if n / 100 == 1 { CostOne(Seratus); } else { DigitCost(n / 100); CostTwo(DigitClip(n / 100), Ratus); }
      if n % 100 > 0 {
        BelowHundredCost(n % 100);
        CostConcat(head, BelowHundred(n % 100));
      } else {
        assert NumberClips(n) == head;
      }
    } else {
      LevelParts(n);
      var s := ScaleOf(n);
      var part, rest := n / s.value, n % s.value;
      var head := if part == 1 && s.solo.Some? then [s.solo.value] else NumberClips(part) + [s.mult];
      assert Cost(head) <= 84 + |Path(s.mult)| + 1 by {
        if part == 1 && s.solo.Some? {
          CostOne(Seribu);
        } else {
          NumberCost(part);
          CostConcat(NumberClips(part), [s.mult]);
          CostOne(s.mult);
        }
      }
      if rest > 0 {
        NumberCost(rest);
        CostConcat(head, NumberClips(rest));
      } else {
        assert NumberClips(n) == head;
      }
    }
  }

  lemma PayloadLength(n: int)
    requires 1 <= n <= MAX_RUPIAH
    ensures Payload(n).Some? && |Payload(n).value| <= 422
  {
    var clips := [AwalQris] + NumberClips(n) + [AkhirBerhasil];
    JoinLength(clips);
    CostConcat([AwalQris] + NumberClips(n), [AkhirBerhasil]);
    CostConcat([AwalQris], NumberClips(n));
    CostOne(AwalQris);
    CostOne(AkhirBerhasil);
    NumberCost(n);
  }

  /** Bytes of an MQTT 3.1.1 PUBLISH at QoS 1 (section 3.3): fixed header with its variable
      remaining length, topic name, packet identifier, payload. */
  function PublishSize(topic: string, payload: string): nat {
    var remaining := 2 + |topic| + 2 + |payload|;
    1 + (if remaining < 128 then 1 else if remaining < 16_384 then 2 else if remaining < 2_097_152 then 3
        else 4) + remaining
  }

  /** The word that a file of the player says. */
  function WordOf(path: string): string {
    if |path| >= 9 && path[..5] == "/ext/" && path[|path| - 4..] == ".mp3" then path[5..|path| - 4] else ""
  }

  /** The amount that a listener hears in a list of played files. */
  function Heard(paths: seq<string>): Option<int> {
    Understand(seq(|paths|, i requires 0 <= i < |paths| => WordOf(paths[i])))
  }

  lemma PathSays(c: Clip)
    ensures WordOf(Path(c)) == Name(c)
  {
    hide Name;
    var path := Path(c);
    assert path[..5] == "/ext/" && path[5..|path| - 4] == Name(c) && path[|path| - 4..] == ".mp3";
  }

  lemma PathsSay(clips: seq<Clip>)
    ensures Heard(Paths(clips)) == Understand(Names(clips))
  {
    hide Path, WordOf, Name, Understand;
    var paths := Paths(clips);
    forall i | 0 <= i < |clips| ensures WordOf(paths[i]) == Name(clips[i]) { PathSays(clips[i]); }
    assert seq(|paths|, i requires 0 <= i < |paths| => WordOf(paths[i])) == Names(clips);
  }

  /** Announcing any speakable amount to any device with a valid identity: the packet fits the
      device's read buffer, the payload is taken as audio and never as a QR reply, and the player
      is handed exactly the composed paths, in order and uncut; what they say is the amount. */
  lemma PlaysWhatWasComposed(n: int, merchant: string, sn: string)
    requires 1 <= n <= MAX_RUPIAH
    requires Topics.ValidId(merchant, Topics.MAX_MERCHANT_ID) && Topics.ValidId(sn, Topics.MAX_SN)
    ensures Payload(n).Some? && Compose(n).Some?
    ensures |Payload(n).value| <= 422
    ensures PublishSize(Topics.DeviceTopic(merchant, sn), Payload(n).value) <= 1024
    ensures IsAudio(Payload(n).value) && !IsQrReply(Payload(n).value)
    ensures PlayList(CString(Payload(n).value)) == Paths(Compose(n).value)
    ensures Heard(PlayList(CString(Payload(n).value))) == Some(n)
  {
    var clips := Compose(n).value;
    PayloadLength(n);
    PayloadIsAudio(clips);
    UnderstandComposed(n);
    PathsSay(clips);
  }

  /** Two amounts that the device cannot tell apart are the same amount. */
  lemma PayloadInjective(a: int, b: int)
    requires Payload(a).Some? && Payload(a) == Payload(b)
    ensures a == b && 1 <= a <= MAX_RUPIAH
  {
    hide Heard, PlayList, CString, Join;
    PlaysWhatWasComposed(a, "M", "S");
    PlaysWhatWasComposed(b, "M", "S");
  }

  /** A QR reply is shown whole, whatever it contains, exactly if it has at most 511 characters. */
  lemma QrReplyIsShownWhole(qris: string)
    requires '\0' !in qris
    ensures IsQrReply("QR:" + qris) && !IsAudio("QR:" + qris)
    ensures Topics.Printed(CString("QR:" + qris)[3..], QRIS_MAX_LEN) == qris <==> |qris| <= 511
  {
    NoTerminator("QR:" + qris);
  }
}
