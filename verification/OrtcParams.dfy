/**
  What extended codecs have in common, the receive capabilities made of them, and which parameters can be
  received (src/ortc.cpp).
 */
module OrtcParams {
  import opened Text
  import opened Validators
  import opened Ortc

  // ----- extended codecs --------------------------------------------------------------------

  /** What every extended codec inherits from validation and matching. */
  predicate Good(e: ExtCodec) {
    && MimeKind(e.mimeType) == Some(e.kind) && !IsRtxMime(e.mimeType)
    && (e.channels.Some? <==> e.kind == "audio")
    && ValidParameters(e.localParameters) && ValidParameters(e.remoteParameters)
    && (e.localRtxPt.Some? || e.remoteRtxPt.Some? ==> e.localPt.Some? && e.remotePt.Some?)
  }

  predicate AllGood(codecs: seq<ExtCodec>) { forall i :: 0 <= i < |codecs| ==> Good(codecs[i]) }

  lemma WithProfileKeeps(c: Codec, profile: Option<string>)
    requires WellFormed(c)
    ensures WellFormed(WithProfile(c, profile))
  {
  }

  lemma RewrittenKeeps(a: Codec, b: Codec, h264: H264)
    requires WellFormed(a) && WellFormed(b) && Matches(a, b, h264) && !IsRtx(b)
    ensures var (l, r) := Rewritten(a, b, h264);
            WellFormed(l) && WellFormed(r) && Good(Extend(l, r))
  {
    if IsH264(a) {
      var profile := h264(H264ParamsOf(a), H264ParamsOf(b)).value;
      WithProfileKeeps(a, profile);
      WithProfileKeeps(b, profile);
    }
  }

  predicate GoodMatching(m: Matching) { AllWellFormed(m.locals) && AllWellFormed(m.remotes) && AllGood(m.found) }

  lemma MatchOneKeeps(m: Matching, i: nat, h264: H264)
    requires i < |m.remotes| && GoodMatching(m)
    ensures GoodMatching(MatchOne(m, i, h264))
  {
    var k := FirstStop(m.locals, m.remotes[i], h264);
    if !m.threw && !IsRtx(m.remotes[i]) && k < |m.locals| && !Clash(m.locals[k], m.remotes[i]) {
      RewrittenKeeps(m.locals[k], m.remotes[i], h264);
    }
  }

  lemma {:induction false} MatchingKeeps(locals: seq<Codec>, remotes: seq<Codec>, n: nat, h264: H264)
    requires n <= |remotes| && AllWellFormed(locals) && AllWellFormed(remotes)
    ensures GoodMatching(MatchUpTo(locals, remotes, n, h264))
  {
    if n == 0 {
      assert GoodMatching(Matching(locals, remotes, [], false));
    } else {
      var i := n - 1;
      MatchingKeeps(locals, remotes, i, h264);
      MatchOneKeeps(MatchUpTo(locals, remotes, i, h264), i, h264);
      assert i + 1 == n;
    }
  }

  lemma ExtendedIsGood(local: Caps, remote: Caps, h264: H264)
    requires Negotiates(local, remote, h264)
    ensures AllGood(ExtendedCaps(local, remote, h264).codecs)
  {
    MatchingKeeps(local.codecs, remote.codecs, |remote.codecs|, h264);
    RewritingKeepsRtx(local.codecs, remote.codecs, |remote.codecs|, h264);
    var m := FinalMatching(local, remote, h264);
    var e := ExtendedCaps(local, remote, h264).codecs;
    forall i | 0 <= i < |e| ensures Good(e[i]) {
      assert Good(m.found[i]);
    }
  }

  // ----- receive capabilities ---------------------------------------------------------------

  /** The RTX codec that goes with a media codec; the code casts the payload type to `uint8_t`. */
  function RtxCodec(kind: string, pt: int, rtxPt: Option<int>, clockRate: int): Codec
  {
    Codec(kind + "/rtx", kind, rtxPt, clockRate, None, map["apt" := Int(pt % 256)], [])
  }

  function RecvEntry(e: ExtCodec): seq<Codec>
    requires Good(e)
  {
    [Codec(e.mimeType, e.kind, e.remotePt, e.clockRate, e.channels, e.localParameters, e.feedback)] +
    if e.remoteRtxPt == None then [] else [RtxCodec(e.kind, e.remotePt.value, e.remoteRtxPt, e.clockRate)]
  }

  function RecvCodecs(codecs: seq<ExtCodec>): seq<Codec>
    requires AllGood(codecs)
  {
    if codecs == [] then []
    else RecvCodecs(codecs[..|codecs| - 1]) + RecvEntry(codecs[|codecs| - 1])
  }

  /** The code reads every direction unchecked. */
  predicate Directed(exts: seq<ExtExt>) { forall i :: 0 <= i < |exts| ==> exts[i].direction.Some? }

  function RecvExts(exts: seq<ExtExt>): seq<HeaderExt>
    requires Directed(exts)
  {
    if exts == [] then []
    else
      var x := exts[|exts| - 1];
      var d := x.direction.value;
      RecvExts(exts[..|exts| - 1]) +
      if d == "sendrecv" || d == "recvonly" then [HeaderExt(x.kind, x.uri, x.recvId, x.encrypt, d)] else []
  }

  /** A remote extension, if the local side has it too, came with a known direction. */
  predicate KnownIfShared(locals: seq<HeaderExt>, remote: HeaderExt) {
    FirstExt(locals, remote) < |locals| ==> KnownDirection(remote.direction)
  }

  predicate AllKnownIfShared(locals: seq<HeaderExt>, remotes: seq<HeaderExt>) {
    forall i :: 0 <= i < |remotes| ==> KnownIfShared(locals, remotes[i])
  }

  /** The directions are all set exactly when every remote extension that the local side has too came with
      a known one. */
  lemma {:induction false} DirectedIff(locals: seq<HeaderExt>, remotes: seq<HeaderExt>)
    ensures Directed(ExtendExts(locals, remotes)) <==> AllKnownIfShared(locals, remotes)
    decreases |remotes|
  {
    if remotes == [] {
    } else {
      var rest := remotes[1..];
      DirectedIff(locals, rest);
      DirectedConcat(ExtendExt(locals, remotes[0]), ExtendExts(locals, rest));
      assert Directed(ExtendExt(locals, remotes[0])) <==> KnownIfShared(locals, remotes[0]) by {
        var k := FirstExt(locals, remotes[0]);
        if k < |locals| { assert ExtendExt(locals, remotes[0])[0].direction == Turned(remotes[0].direction); }
      }
      assert remotes == [remotes[0]] + rest;
    }
  }

  lemma DirectedConcat(a: seq<ExtExt>, b: seq<ExtExt>)
    ensures Directed(a + b) <==> Directed(a) && Directed(b)
  {
    if Directed(a + b) {
      forall i | 0 <= i < |a| ensures a[i].direction.Some? { assert (a + b)[i] == a[i]; }
      forall i | 0 <= i < |b| ensures b[i].direction.Some? { assert (a + b)[|a| + i] == b[i]; }
    }
  }

  method GetRecvRtpCapabilities(extended: Extended) returns (caps: Caps)
    requires AllGood(extended.codecs) && Directed(extended.exts)
    ensures caps == Caps(RecvCodecs(extended.codecs), RecvExts(extended.exts))
  {
    var codecs := ListReceivable(extended.codecs);
    var exts := KeepReceivable(extended.exts);
    caps := Caps(codecs, exts);
  }

  /** The codec loop of `getRecvRtpCapabilities`. */
  method ListReceivable(all: seq<ExtCodec>) returns (codecs: seq<Codec>)
    requires AllGood(all)
    ensures codecs == RecvCodecs(all)
  {
    codecs := [];
    for i := 0 to |all|
      invariant codecs == RecvCodecs(all[..i])
    {
      RecvCodecsNext(all, i);
      var e := all[i];
      codecs := codecs +
        [Codec(e.mimeType, e.kind, e.remotePt, e.clockRate, e.channels, e.localParameters, e.feedback)];
      if e.remoteRtxPt != None {
        codecs := codecs + [RtxCodec(e.kind, e.remotePt.value, e.remoteRtxPt, e.clockRate)];
      }
    }
    assert all[..|all|] == all;
  }

  lemma RecvCodecsNext(all: seq<ExtCodec>, i: nat)
    requires AllGood(all) && i < |all|
    ensures RecvCodecs(all[..i + 1]) == RecvCodecs(all[..i]) + RecvEntry(all[i])
  {
    assert all[..i + 1][..i] == all[..i];
  }

  /** The header extension loop of `getRecvRtpCapabilities`. */
  method KeepReceivable(all: seq<ExtExt>) returns (exts: seq<HeaderExt>)
    requires Directed(all)
    ensures exts == RecvExts(all)
  {
    exts := [];
    for i := 0 to |all|
      invariant exts == RecvExts(all[..i])
    {
      assert all[..i + 1][..i] == all[..i];
      var direction := all[i].direction.value;
      if direction == "sendrecv" || direction == "recvonly" {
        exts := exts + [HeaderExt(all[i].kind, all[i].uri, all[i].recvId, all[i].encrypt, direction)];
      }
    }
    assert all[..|all|] == all;
  }

  /** RTX entry `i` directly follows the media codec it retransmits. */
  predicate RtxFollows(codecs: seq<Codec>, i: nat)
    requires i < |codecs|
  {
    && i > 0 && !IsRtx(codecs[i - 1]) && codecs[i - 1].payloadType.Some?
    && codecs[i].parameters == map["apt" := Int(codecs[i - 1].payloadType.value % 256)]
    && codecs[i].clockRate == codecs[i - 1].clockRate && codecs[i].kind == codecs[i - 1].kind
  }

  lemma EntryShape(e: ExtCodec)
    requires Good(e)
    ensures !IsRtx(RecvEntry(e)[0]) && (|RecvEntry(e)| == 2 ==> IsRtx(RecvEntry(e)[1]) && RtxFollows(RecvEntry(e), 1))
  {
    RtxMimeOfKind(e.mimeType, e.kind);
  }

  /** Every RTX entry of the receive capabilities directly follows its media codec, and its apt is that
      codec's payload type modulo 256. */
  lemma {:induction false} RecvRtxFollows(codecs: seq<ExtCodec>, i: nat)
    requires AllGood(codecs) && i < |RecvCodecs(codecs)| && IsRtx(RecvCodecs(codecs)[i])
    ensures RtxFollows(RecvCodecs(codecs), i)
    decreases |codecs|
  {
    var front, e := codecs[..|codecs| - 1], codecs[|codecs| - 1];
    var n := |RecvCodecs(front)|;
    EntryShape(e);
    if i < n {
      RecvRtxFollows(front, i);
      assert RecvCodecs(codecs)[i] == RecvCodecs(front)[i] && RecvCodecs(codecs)[i - 1] == RecvCodecs(front)[i - 1];
    } else {
      assert RecvCodecs(codecs)[i] == RecvEntry(e)[i - n];
      assert i - n == 1 && RecvCodecs(codecs)[i - 1] == RecvEntry(e)[0];
    }
  }

  /** The truncation is harmless exactly for payload types that fit in 8 bits. */
  lemma AptIsPayloadTypeIff(codecs: seq<Codec>, i: nat)
    requires i < |codecs| && RtxFollows(codecs, i)
    ensures codecs[i].parameters["apt"] == Int(codecs[i - 1].payloadType.value) <==>
            0 <= codecs[i - 1].payloadType.value < 256
  {
  }

  // ----- canReceive -------------------------------------------------------------------------

  /** Some extended codec has the remote payload type `pt`. */
  predicate Receivable(codecs: seq<ExtCodec>, pt: int) {
    exists i :: 0 <= i < |codecs| && codecs[i].remotePt == Some(pt)
  }

  /** `canReceive` on the payload types of validated parameters. */
  predicate CanReceive(payloadTypes: seq<int>, extended: Extended) {
    payloadTypes != [] && Receivable(extended.codecs, payloadTypes[0])
  }

  predicate Advertised(codecs: seq<Codec>, pt: int) {
    exists i :: 0 <= i < |codecs| && !IsRtx(codecs[i]) && codecs[i].payloadType == Some(pt)
  }

  lemma ReceivableAppend(codecs: seq<ExtCodec>, e: ExtCodec, pt: int)
    ensures Receivable(codecs + [e], pt) <==> Receivable(codecs, pt) || e.remotePt == Some(pt)
  {
    var all := codecs + [e];
    if i :| 0 <= i < |codecs| && codecs[i].remotePt == Some(pt) {
      assert all[i] == codecs[i];
    }
    assert all[|codecs|] == e;
  }

  lemma EntryAdvertises(e: ExtCodec, pt: int)
    requires Good(e)
    ensures Advertised(RecvEntry(e), pt) <==> e.remotePt == Some(pt)
  {
    EntryShape(e);
    assert RecvEntry(e)[0].payloadType == e.remotePt;
  }

  lemma AdvertisedConcat(a: seq<Codec>, b: seq<Codec>, pt: int)
    ensures Advertised(a + b, pt) <==> Advertised(a, pt) || Advertised(b, pt)
  {
    if i :| 0 <= i < |a| && !IsRtx(a[i]) && a[i].payloadType == Some(pt) {
      assert (a + b)[i] == a[i];
    }
    if i :| 0 <= i < |b| && !IsRtx(b[i]) && b[i].payloadType == Some(pt) {
      assert (a + b)[|a| + i] == b[i];
    }
  }

  lemma AdvertisedNext(codecs: seq<ExtCodec>, pt: int)
    requires AllGood(codecs) && codecs != []
    ensures var front, e := codecs[..|codecs| - 1], codecs[|codecs| - 1];
            Advertised(RecvCodecs(codecs), pt) <==> Advertised(RecvCodecs(front), pt) || e.remotePt == Some(pt)
  {
    var front, e := codecs[..|codecs| - 1], codecs[|codecs| - 1];
    AdvertisedConcat(RecvCodecs(front), RecvEntry(e), pt);
    EntryAdvertises(e, pt);
  }

  lemma {:induction false} AdvertisedIsReceivable(codecs: seq<ExtCodec>, pt: int)
    requires AllGood(codecs)
    ensures Advertised(RecvCodecs(codecs), pt) <==> Receivable(codecs, pt)
    decreases |codecs|
  {
    if codecs == [] {
    } else {
      var front, e := codecs[..|codecs| - 1], codecs[|codecs| - 1];
      assert codecs == front + [e];
      AdvertisedIsReceivable(front, pt);
      AdvertisedNext(codecs, pt);
      ReceivableAppend(front, e, pt);
    }
  }

  /** Parameters can be received exactly when their first payload type belongs to an advertised codec
      that is not RTX. */
  lemma CanReceiveIffAdvertised(payloadTypes: seq<int>, extended: Extended)
    requires AllGood(extended.codecs)
    ensures CanReceive(payloadTypes, extended) <==>
            payloadTypes != [] && Advertised(RecvCodecs(extended.codecs), payloadTypes[0])
  {
    if payloadTypes != [] {
      AdvertisedIsReceivable(extended.codecs, payloadTypes[0]);
    }
  }
}
