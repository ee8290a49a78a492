/**
  Sending parameters (src/ortc.cpp): what the local side sends, what the remote answer says, and the
  reduction of both to one codec before a track is sent (src/Handler.cpp). The answer section looks its
  codecs up in the offered ones without testing the result (src/sdp/MediaSection.cpp).
 */
module OrtcSending {
  import opened Text
  import opened Validators
  import opened Ortc
  import opened OrtcParams

  datatype SendExt = SendExt(uri: string, id: int, encrypt: bool)
  datatype SendParams = SendParams(codecs: seq<Codec>, exts: seq<SendExt>)

  predicate CanSend(kind: string, extended: Extended) {
    exists i :: 0 <= i < |extended.codecs| && extended.codecs[i].kind == kind
  }

  /** The code reads the directions of the kind's extensions unchecked. */
  predicate DirectedFor(exts: seq<ExtExt>, kind: string) {
    forall i :: 0 <= i < |exts| && exts[i].kind == kind ==> exts[i].direction.Some?
  }

  // ----- getSendingRtpParameters ----------------------------------------------------------------

  /** The codecs of the local side: the first codec of the kind with the local parameters, and its RTX
      codec. */
  function SendCodecs(kind: string, all: seq<ExtCodec>): seq<Codec>
    requires AllGood(all)
  {
    if all == [] then []
    else if all[0].kind != kind then SendCodecs(kind, all[1..])
    else
      var e := all[0];
      var codec := Codec(e.mimeType, e.kind, e.localPt, e.clockRate, e.channels, e.localParameters, e.feedback);
      if e.localRtxPt == None then [codec] else [codec, RtxCodec(e.kind, e.localPt.value, e.localRtxPt, e.clockRate)]
  }

  function SendExts(kind: string, all: seq<ExtExt>): seq<SendExt>
    requires DirectedFor(all, kind)
  {
    if all == [] then []
    else
      var x := all[|all| - 1];
      SendExts(kind, all[..|all| - 1]) +
      if x.kind == kind && (x.direction.value == "sendrecv" || x.direction.value == "sendonly")
      then [SendExt(x.uri, x.sendId, x.encrypt)] else []
  }

  /** `getSendingRtpParameters`. */
  function Sending(kind: string, extended: Extended): SendParams
    requires AllGood(extended.codecs) && DirectedFor(extended.exts, kind)
  {
    SendParams(SendCodecs(kind, extended.codecs), SendExts(kind, extended.exts))
  }

  method GetSendingRtpParameters(kind: string, extended: Extended) returns (params: SendParams)
    requires AllGood(extended.codecs) && DirectedFor(extended.exts, kind)
    ensures params == Sending(kind, extended)
  {
    var codecs := SelectCodecs(kind, extended.codecs);
    var exts := SelectExts(kind, extended.exts);
    params := SendParams(codecs, exts);
  }

  method SelectCodecs(kind: string, all: seq<ExtCodec>) returns (codecs: seq<Codec>)
    requires AllGood(all)
    ensures codecs == SendCodecs(kind, all)
  {
    codecs := [];
    for i := 0 to |all|
      invariant codecs == [] && SendCodecs(kind, all[i..]) == SendCodecs(kind, all)
    {
      assert all[i..][1..] == all[i + 1..];
      var e := all[i];
      if e.kind != kind {
        continue;
      }
      codecs := [Codec(e.mimeType, e.kind, e.localPt, e.clockRate, e.channels, e.localParameters, e.feedback)];
      if e.localRtxPt != None {
        codecs := codecs + [RtxCodec(e.kind, e.localPt.value, e.localRtxPt, e.clockRate)];
      }
      break;
    }
  }

  method SelectExts(kind: string, all: seq<ExtExt>) returns (exts: seq<SendExt>)
    requires DirectedFor(all, kind)
    ensures exts == SendExts(kind, all)
  {
    exts := [];
    for i := 0 to |all|
      invariant exts == SendExts(kind, all[..i])
    {
      assert all[..i + 1][..i] == all[..i];
      if all[i].kind != kind {
        continue;
      }
      var direction := all[i].direction.value;
      if direction != "sendrecv" && direction != "sendonly" {
        continue;
      }
      exts := exts + [SendExt(all[i].uri, all[i].sendId, all[i].encrypt)];
    }
    assert all[..|all|] == all;
  }

  // ----- getSendingRemoteRtpParameters ------------------------------------------------------------

  const TRANSPORT_CC := "http://www.ietf.org/id/draft-holmer-rmcat-transport-wide-cc-extensions-01"
  const ABS_SEND_TIME := "http://www.webrtc.org/experiments/rtp-hdrext/abs-send-time"

  predicate HasUri(exts: seq<SendExt>, uri: string) { exists i :: 0 <= i < |exts| && exts[i].uri == uri }

  /** The feedback types the remote parameters drop, by the extensions that are in use. */
  function Dropped(exts: seq<SendExt>): set<string>
  {
    if HasUri(exts, TRANSPORT_CC) then {"goog-remb"}
    else if HasUri(exts, ABS_SEND_TIME) then {"transport-cc"}
    else {"transport-cc", "goog-remb"}
  }

  function Without(feedback: seq<Fb>, types: set<string>): seq<Fb>
  {
    if feedback == [] then []
    else (if feedback[0].kind in types then [] else [feedback[0]]) + Without(feedback[1..], types)
  }

  /** The codecs of the remote side before their feedback is cut: the first codec of the kind, with the
      local payload type but the remote parameters, and an RTX codec when the local side has one. */
  function AnswerCodecs(kind: string, all: seq<ExtCodec>): seq<Codec>
    requires AllGood(all)
  {
    if all == [] then []
    else if all[0].kind == kind then
      var e := all[0];
      var rtx := if e.localRtxPt == None then []
                 else [RtxCodec(e.kind, e.localPt.value, e.localRtxPt, e.clockRate)];
      [Codec(e.mimeType, e.kind, e.localPt, e.clockRate, e.channels, e.remoteParameters, e.feedback)] + rtx
    else AnswerCodecs(kind, all[1..])
  }

  function AnswerExts(kind: string, all: seq<ExtExt>): seq<SendExt>
    requires DirectedFor(all, kind)
  {
    if all == [] then []
    else
      var x := all[|all| - 1];
      var rest := AnswerExts(kind, all[..|all| - 1]);
      if x.kind != kind || (x.direction.value != "sendrecv" && x.direction.value != "sendonly") then rest
      else rest + [SendExt(x.uri, x.sendId, x.encrypt)]
  }

  /** Every codec with its feedback cut. */
  function Cut(codecs: seq<Codec>, types: set<string>): (cut: seq<Codec>)
    ensures |cut| == |codecs|
    ensures forall i :: 0 <= i < |cut| ==> cut[i] == codecs[i].(feedback := Without(codecs[i].feedback, types))
  {
    seq(|codecs|, i requires 0 <= i < |codecs| => codecs[i].(feedback := Without(codecs[i].feedback, types)))
  }

  /** `getSendingRemoteRtpParameters`. */
  function SendingRemote(kind: string, extended: Extended): SendParams
    requires AllGood(extended.codecs) && DirectedFor(extended.exts, kind)
  {
    var exts := AnswerExts(kind, extended.exts);
    SendParams(Cut(AnswerCodecs(kind, extended.codecs), Dropped(exts)), exts)
  }

  method GetSendingRemoteRtpParameters(kind: string, extended: Extended) returns (params: SendParams)
    requires AllGood(extended.codecs) && DirectedFor(extended.exts, kind)
    ensures params == SendingRemote(kind, extended)
  {
    var codecs := SelectAnswerCodecs(kind, extended.codecs);
    var exts := SelectAnswerExts(kind, extended.exts);
    if HasUri(exts, TRANSPORT_CC) {
      codecs := CutAll(codecs, {"goog-remb"});
      return SendParams(codecs, exts);
    }
    if HasUri(exts, ABS_SEND_TIME) {
      codecs := CutAll(codecs, {"transport-cc"});
      return SendParams(codecs, exts);
    }
    codecs := CutAll(codecs, {"transport-cc", "goog-remb"});
    return SendParams(codecs, exts);
  }

  method SelectAnswerCodecs(kind: string, all: seq<ExtCodec>) returns (codecs: seq<Codec>)
    requires AllGood(all)
    ensures codecs == AnswerCodecs(kind, all)
  {
    codecs := [];
    for i := 0 to |all|
      invariant codecs == [] && AnswerCodecs(kind, all[i..]) == AnswerCodecs(kind, all)
    {
      assert all[i..][1..] == all[i + 1..];
      var e := all[i];
      if e.kind != kind {
        continue;
      }
      codecs := codecs +
        [Codec(e.mimeType, e.kind, e.localPt, e.clockRate, e.channels, e.remoteParameters, e.feedback)];
      if e.localRtxPt != None {
        codecs := codecs + [RtxCodec(e.kind, e.localPt.value, e.localRtxPt, e.clockRate)];
      }
      break;
    }
  }

  method SelectAnswerExts(kind: string, all: seq<ExtExt>) returns (exts: seq<SendExt>)
    requires DirectedFor(all, kind)
    ensures exts == AnswerExts(kind, all)
  {
    exts := [];
    for i := 0 to |all|
      invariant exts == AnswerExts(kind, all[..i])
    {
      assert all[..i + 1][..i] == all[..i];
      if all[i].kind == kind {
        var direction := all[i].direction.value;
        if direction == "sendrecv" || direction == "sendonly" {
          exts := exts + [SendExt(all[i].uri, all[i].sendId, all[i].encrypt)];
        }
      }
    }
    assert all[..|all|] == all;
  }

  /** The loop over the codecs around the erasing loop. */
  method CutAll(codecs: seq<Codec>, types: set<string>) returns (cut: seq<Codec>)
    ensures cut == Cut(codecs, types)
  {
    cut := codecs;
    for i := 0 to |codecs|
      invariant |cut| == |codecs|
      invariant forall j :: 0 <= j < i ==> cut[j] == Cut(codecs, types)[j]
      invariant forall j :: i <= j < |codecs| ==> cut[j] == codecs[j]
    {
      var kept := EraseFeedback(cut[i].feedback, types);
      cut := cut[i := cut[i].(feedback := kept)];
    }
  }

  /** The erasing loop on one codec's feedback. */
  method EraseFeedback(feedback: seq<Fb>, types: set<string>) returns (kept: seq<Fb>)
    ensures kept == Without(feedback, types)
  {
    kept := feedback;
    var i := 0;
    while i < |kept|
      invariant 0 <= i <= |kept|
      invariant kept[..i] + Without(kept[i..], types) == Without(feedback, types)
      decreases |kept| - i
    {
      assert kept[i..][1..] == kept[i + 1..];
      if kept[i].kind in types {
        var next := kept[..i] + kept[i + 1..];
        assert next[..i] == kept[..i] && next[i..] == kept[i + 1..];
        kept := next;
      } else {
        assert kept[..i + 1] == kept[..i] + [kept[i]];
        i := i + 1;
      }
    }
    assert kept[..i] == kept && kept[i..] == [];
  }

  // ----- both sides agree ---------------------------------------------------------------------

  /** Two codec entries mean the same thing on the wire; their feedback and parameters may differ, but
      an RTX entry has the same apt. */
  predicate Agree(a: Codec, b: Codec) {
    && a.mimeType == b.mimeType && a.payloadType == b.payloadType && a.clockRate == b.clockRate
    && a.channels == b.channels && (IsRtx(a) ==> a == b)
  }

  /** Two codec lists agree entry by entry; there is at most a media codec and an RTX codec behind it. */
  predicate AllAgree(a: seq<Codec>, b: seq<Codec>) {
    |a| == |b| <= 2 && forall i :: 0 <= i < |a| ==> Agree(a[i], b[i]) && (IsRtx(a[i]) <==> i == 1)
  }

  /** The first codec of the kind, if any, decides both lists. */
  lemma {:induction false} CodecsAgree(kind: string, all: seq<ExtCodec>)
    requires AllGood(all)
    ensures AllAgree(SendCodecs(kind, all), AnswerCodecs(kind, all))
    ensures SendCodecs(kind, all) != [] <==> exists i :: 0 <= i < |all| && all[i].kind == kind
    ensures forall i :: 0 <= i < |SendCodecs(kind, all)| ==>
      SendCodecs(kind, all)[i].feedback == AnswerCodecs(kind, all)[i].feedback
  {
    if all == [] {
    } else if all[0].kind == kind {
      assert Good(all[0]);
      RtxMimeOfKind(all[0].mimeType, all[0].kind);
    } else {
      CodecsAgree(kind, all[1..]);
      assert all == [all[0]] + all[1..];
    }
  }

  lemma {:induction false} ExtsAgree(kind: string, all: seq<ExtExt>)
    requires DirectedFor(all, kind)
    ensures SendExts(kind, all) == AnswerExts(kind, all)
    decreases |all|
  {
    if all == [] {
    } else {
      ExtsAgree(kind, all[..|all| - 1]);
    }
  }

  lemma CutAgrees(a: seq<Codec>, b: seq<Codec>, types: set<string>)
    requires AllAgree(a, b) && forall i :: 0 <= i < |b| && IsRtx(b[i]) ==> b[i].feedback == []
    ensures AllAgree(a, Cut(b, types))
  {
    forall i | 0 <= i < |a| ensures Agree(a[i], Cut(b, types)[i]) {
      assert Agree(a[i], b[i]);
    }
  }

  lemma {:induction false} RtxHasNoFeedback(kind: string, all: seq<ExtCodec>)
    requires AllGood(all)
    ensures forall i :: 0 <= i < |AnswerCodecs(kind, all)| && IsRtx(AnswerCodecs(kind, all)[i]) ==>
      AnswerCodecs(kind, all)[i].feedback == []
  {
    if all == [] {
    } else if all[0].kind != kind {
      RtxHasNoFeedback(kind, all[1..]);
    } else {
      assert Good(all[0]);
    }
  }

  /** What the two functions make of the same extended capabilities. */
  ghost predicate SidesMatch(kind: string, e: Extended)
    requires AllGood(e.codecs) && DirectedFor(e.exts, kind)
  {
    var l, r := Sending(kind, e), SendingRemote(kind, e);
    AllAgree(l.codecs, r.codecs) && (l.codecs != [] <==> CanSend(kind, e)) && l.exts == r.exts
  }

  lemma SidesMatchAlways(kind: string, e: Extended)
    requires AllGood(e.codecs) && DirectedFor(e.exts, kind)
    ensures SidesMatch(kind, e)
  {
    CodecsAgree(kind, e.codecs);
    ExtsAgree(kind, e.exts);
    RtxHasNoFeedback(kind, e.codecs);
    CutAgrees(SendCodecs(kind, e.codecs), AnswerCodecs(kind, e.codecs), Dropped(AnswerExts(kind, e.exts)));
  }

  /** The negotiation goes through and the kind's extensions have directions. */
  predicate Sendable(kind: string, local: Caps, remote: Caps, h264: H264) {
    Negotiates(local, remote, h264) && DirectedFor(ExtendedCaps(local, remote, h264).exts, kind)
  }

  /** Whatever two capability sets are negotiated, the two separate loops agree: local and remote sending
      parameters have the same entries on the wire, and there are entries exactly when the kind can be sent. */
  lemma SidesAgree(kind: string, local: Caps, remote: Caps, h264: H264)
    requires Sendable(kind, local, remote, h264)
    ensures var e := ExtendedCaps(local, remote, h264); AllGood(e.codecs) && SidesMatch(kind, e)
  {
    ExtendedIsGood(local, remote, h264);
    SidesMatchAlways(kind, ExtendedCaps(local, remote, h264));
  }

  lemma {:induction false} WithoutIsSelection(feedback: seq<Fb>, types: set<string>, fb: Fb)
    ensures multiset(Without(feedback, types))[fb] == if fb.kind in types then 0 else multiset(feedback)[fb]
  {
    if feedback == [] {
    } else {
      assert feedback == [feedback[0]] + feedback[1..];
      WithoutIsSelection(feedback[1..], types, fb);
    }
  }

  lemma {:induction false} WithoutInOrder(a: seq<Fb>, b: seq<Fb>, types: set<string>)
    ensures Without(a + b, types) == Without(a, types) + Without(b, types)
  {
    if a == [] {
      assert a + b == b;
    } else {
      var head := if a[0].kind in types then [] else [a[0]];
      var rest := Without(a[1..], types);
      calc {
        Without(a + b, types);
        { assert (a + b)[1..] == a[1..] + b; }
        head + Without(a[1..] + b, types);
        { WithoutInOrder(a[1..], b, types); }
        head + (rest + Without(b, types));
        (head + rest) + Without(b, types);
      }
    }
  }

  /** The remote feedback is the local feedback without the dropped types, and never offers both
      bandwidth estimation schemes. */
  lemma OneBandwidthScheme(kind: string, e: Extended, i: nat, a: Fb, b: Fb)
    requires AllGood(e.codecs) && DirectedFor(e.exts, kind) && i < |SendingRemote(kind, e).codecs|
    ensures var l, r := Sending(kind, e).codecs, SendingRemote(kind, e);
            && |l| == |r.codecs| && r.codecs[i].feedback == Without(l[i].feedback, Dropped(r.exts))
            && (a in r.codecs[i].feedback && b in r.codecs[i].feedback ==>
                  !(a.kind == "goog-remb" && b.kind == "transport-cc"))
  {
    CodecsAgree(kind, e.codecs);
    var l, r := Sending(kind, e).codecs, SendingRemote(kind, e);
    WithoutIsSelection(l[i].feedback, Dropped(r.exts), a);
    WithoutIsSelection(l[i].feedback, Dropped(r.exts), b);
  }

  // ----- reduction to one codec ---------------------------------------------------------------

  /** What `reduceCodecs` does. An empty list is padded with a null entry (`NullPicked`); with a capability
      codec, a match in the last place makes the code read a null entry and throw (`NullRead`). */
  datatype Reduced = Picked(codecs: seq<Codec>) | NullPicked | NoMatch | NullRead

  function FirstFormat(codecs: seq<Codec>, cap: Codec): (k: nat)
    ensures k <= |codecs|
    ensures k < |codecs| ==> SameFormat(codecs[k], cap)
    ensures forall i :: 0 <= i < k ==> !SameFormat(codecs[i], cap)
  {
    if codecs == [] || SameFormat(codecs[0], cap) then 0 else 1 + FirstFormat(codecs[1..], cap)
  }

  /** The codec at `k` and the RTX codec right behind it. */
  function PickAt(codecs: seq<Codec>, k: nat): seq<Codec>
    requires k < |codecs|
  {
    [codecs[k]] + if k + 1 < |codecs| && IsRtx(codecs[k + 1]) then [codecs[k + 1]] else []
  }

  function Reduce(codecs: seq<Codec>, cap: Option<Codec>): Reduced
  {
    match cap
    case None => if codecs == [] then NullPicked else Picked(PickAt(codecs, 0))
    case Some(c) =>
      var k := FirstFormat(codecs, c);
      if k == |codecs| then NoMatch
      else if k + 1 == |codecs| then NullRead
      else Picked(PickAt(codecs, k))
  }

  method ReduceCodecs(codecs: seq<Codec>, cap: Option<Codec>) returns (reduced: Reduced)
    ensures reduced == Reduce(codecs, cap)
  {
    if cap == None {
      if codecs == [] {
        return NullPicked;
      }
      var filtered := [codecs[0]];
      if |codecs| > 1 && IsRtx(codecs[1]) {
        filtered := filtered + [codecs[1]];
      }
      return Picked(filtered);
    }
    for idx := 0 to |codecs|
      invariant forall i :: 0 <= i < idx ==> !SameFormat(codecs[i], cap.value)
    {
      if SameFormat(codecs[idx], cap.value) {
        assert FirstFormat(codecs, cap.value) == idx;
        var filtered := [codecs[idx]];
        if idx + 1 == |codecs| {
          return NullRead;
        }
        if IsRtx(codecs[idx + 1]) {
          filtered := filtered + [codecs[idx + 1]];
        }
        return Picked(filtered);
      }
    }
    return NoMatch;
  }

  lemma ReduceWorksOn(l: seq<Codec>, cap: Option<Codec>)
    requires |l| <= 2 && forall i :: 0 <= i < |l| ==> (IsRtx(l[i]) <==> i == 1)
    ensures Reduce(l, cap).Picked? <==> if cap == None then l != [] else ReducesBy(l, cap.value)
  {
  }

  /** The first codec with the format of the capability has another one behind it. */
  predicate ReducesBy(l: seq<Codec>, cap: Codec) { FirstFormat(l, cap) + 1 < |l| }

  /** With a capability codec the reduction works exactly when the kind can be sent with RTX and the
      capability has the format of its media codec; without one it works exactly when the kind can be sent,
      and picks a null otherwise. */
  lemma ReduceWorksIff(kind: string, local: Caps, remote: Caps, h264: H264, cap: Option<Codec>)
    requires Sendable(kind, local, remote, h264)
    ensures var e := ExtendedCaps(local, remote, h264);
            AllGood(e.codecs) &&
            var l := Sending(kind, e).codecs;
            && (Reduce(l, cap).Picked? <==> if cap == None then CanSend(kind, e)
                                            else |l| == 2 && SameFormat(l[0], cap.value))
            && (Reduce(l, cap).NullPicked? <==> cap == None && !CanSend(kind, e))
  {
    SidesAgree(kind, local, remote, h264);
    ReduceWorksOn(Sending(kind, ExtendedCaps(local, remote, h264)).codecs, cap);
  }

  /** Lists that agree reduce to entries that agree, or fail in the same way. */
  lemma AgreeingReduceAlike(l: seq<Codec>, r: seq<Codec>, cap: Option<Codec>)
    requires AllAgree(l, r)
    ensures var a, b := Reduce(l, cap), Reduce(r, cap);
            if a.Picked? then b.Picked? && AllAgree(a.codecs, b.codecs) else b == a
  {
    if cap.Some? {
      assert forall i :: 0 <= i < |l| ==> (SameFormat(l[i], cap.value) <==> SameFormat(r[i], cap.value));
      assert FirstFormat(l, cap.value) == FirstFormat(r, cap.value);
    }
  }

  /** Both sides reduce to the same entries or fail in the same way. */
  lemma SidesReduceAlike(kind: string, local: Caps, remote: Caps, h264: H264, cap: Option<Codec>)
    requires Sendable(kind, local, remote, h264)
    ensures var e := ExtendedCaps(local, remote, h264);
            AllGood(e.codecs) &&
            var l, r := Reduce(Sending(kind, e).codecs, cap), Reduce(SendingRemote(kind, e).codecs, cap);
            if l.Picked? then r.Picked? && AllAgree(l.codecs, r.codecs) else r == l
  {
    SidesAgree(kind, local, remote, h264);
    var e := ExtendedCaps(local, remote, h264);
    AgreeingReduceAlike(Sending(kind, e).codecs, SendingRemote(kind, e).codecs, cap);
  }

  /** Position of the first offered codec with a payload type, or the length: the lookup of the answer
      section, whose result is used unchecked. */
  function FindOffered(offered: seq<Codec>, pt: Option<int>): (k: nat)
    ensures k <= |offered|
    ensures k < |offered| ==> offered[k].payloadType == pt
    ensures k == |offered| ==> forall i :: 0 <= i < |offered| ==> offered[i].payloadType != pt
  {
    if offered == [] || offered[0].payloadType == pt then 0 else 1 + FindOffered(offered[1..], pt)
  }

  /** For every codec of the reduced remote parameters the lookup in the reduced local ones succeeds, and
      finds the entry that agrees with it when payload types differ. */
  lemma AnswerLookupSucceeds(kind: string, local: Caps, remote: Caps, h264: H264, cap: Option<Codec>, i: nat)
    requires Sendable(kind, local, remote, h264)
    ensures var e := ExtendedCaps(local, remote, h264);
            AllGood(e.codecs) &&
            var offered, answered := Reduce(Sending(kind, e).codecs, cap), Reduce(SendingRemote(kind, e).codecs, cap);
            answered.Picked? && i < |answered.codecs| ==>
              && offered.Picked? && |offered.codecs| == |answered.codecs|
              && var k := FindOffered(offered.codecs, answered.codecs[i].payloadType);
                 k <= i && (k < i ==> offered.codecs[k].payloadType == offered.codecs[i].payloadType)
  {
    SidesReduceAlike(kind, local, remote, h264, cap);
    var e := ExtendedCaps(local, remote, h264);
    var offered, answered := Reduce(Sending(kind, e).codecs, cap), Reduce(SendingRemote(kind, e).codecs, cap);
    if answered.Picked? && i < |answered.codecs| {
      assert Agree(offered.codecs[i], answered.codecs[i]);
      FindOfferedFirst(offered.codecs, answered.codecs[i].payloadType, i);
    }
  }

  lemma {:induction false} FindOfferedFirst(offered: seq<Codec>, pt: Option<int>, i: nat)
    requires i < |offered| && offered[i].payloadType == pt
    ensures FindOffered(offered, pt) <= i
  {
    if i == 0 {
    } else {
      FindOfferedFirst(offered[1..], pt, i - 1);
    }
  }
}
