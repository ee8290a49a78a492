/**
  Capabilities as JSON: reading validated objects into records, writing receive capabilities back, and
  whether what is written passes the validator again.
 */
module OrtcJson {
  import opened Text
  import opened Validators
  import opened Ortc
  import opened OrtcParams

  // ----- reading ------------------------------------------------------------------------------

  predicate FilledCodec(j: Json) { j.Obj? && "kind" in j.o && j.o["kind"].Str? && Filled(j.o, j.o["kind"].s) }

  predicate FilledFb(j: Json) {
    j.Obj? && "type" in j.o && j.o["type"].Str? && "parameter" in j.o && j.o["parameter"].Str?
  }

  function FbOf(j: Json): Fb
    requires FilledFb(j)
  {
    Fb(j.o["type"].s, j.o["parameter"].s)
  }

  function CodecOf(j: Json): (c: Codec)
    requires FilledCodec(j)
    ensures WellFormed(c)
  {
    var o := j.o;
    var fbs := o["rtcpFeedback"].a;
    Codec(o["mimeType"].s, o["kind"].s,
          if "preferredPayloadType" in o then Some(o["preferredPayloadType"].i) else None,
          o["clockRate"].i,
          if "channels" in o then Some(o["channels"].i) else None,
          o["parameters"].o,
          seq(|fbs|, i requires 0 <= i < |fbs| => FixedFbIsFilled(fbs[i]); FbOf(fbs[i])))
  }

  lemma FixedFbIsFilled(j: Json)
    requires ValidateFeedback(j) == Ok(j)
    ensures FilledFb(j)
  {
  }

  predicate FilledExt(j: Json) {
    && j.Obj? && "kind" in j.o && j.o["kind"].Str? && (j.o["kind"].s == "audio" || j.o["kind"].s == "video")
    && "uri" in j.o && j.o["uri"].Str? && j.o["uri"].s != ""
    && "preferredId" in j.o && j.o["preferredId"].Int?
    && "preferredEncrypt" in j.o && j.o["preferredEncrypt"].Bool?
    && "direction" in j.o && j.o["direction"].Str?
  }

  function ExtOf(j: Json): HeaderExt
    requires FilledExt(j)
  {
    HeaderExt(j.o["kind"].s, j.o["uri"].s, j.o["preferredId"].i, j.o["preferredEncrypt"].b, j.o["direction"].s)
  }

  /** A capability object in which every entry has its defaults. */
  predicate FilledCaps(j: Json) {
    && j.Obj? && "codecs" in j.o && j.o["codecs"].Arr? && "headerExtensions" in j.o && j.o["headerExtensions"].Arr?
    && (forall i :: 0 <= i < |j.o["codecs"].a| ==> FilledCodec(j.o["codecs"].a[i]))
    && (forall i :: 0 <= i < |j.o["headerExtensions"].a| ==> FilledExt(j.o["headerExtensions"].a[i]))
  }

  function CapsOf(j: Json): (c: Caps)
    requires FilledCaps(j)
    ensures |c.codecs| == |j.o["codecs"].a| && AllWellFormed(c.codecs)
    ensures |c.exts| == |j.o["headerExtensions"].a|
    ensures forall i :: 0 <= i < |c.exts| ==> c.exts[i] == ExtOf(j.o["headerExtensions"].a[i])
  {
    var codecs, exts := j.o["codecs"].a, j.o["headerExtensions"].a;
    Caps(seq(|codecs|, i requires 0 <= i < |codecs| => CodecOf(codecs[i])),
         seq(|exts|, i requires 0 <= i < |exts| => ExtOf(exts[i])))
  }

  lemma ValidatedCodecReads(j: Json)
    requires ValidateCodec(j).Ok?
    ensures FilledCodec(ValidateCodec(j).value)
  {
    ValidatedIsFilled(j);
  }

  lemma ValidatedExtReads(j: Json)
    requires ValidateExt(j).Ok?
    ensures FilledExt(ValidateExt(j).value)
  {
  }

  /** Whatever passes validation can be read. */
  lemma ValidatedCapsRead(j: Json)
    requires ValidateCaps(j).Ok?
    ensures FilledCaps(ValidateCaps(j).value)
  {
    var v := ValidateCaps(j).value;
    var codecs, exts := ArrayField(j.o, "codecs").a, ArrayField(j.o, "headerExtensions").a;
    forall i | 0 <= i < |codecs| ensures FilledCodec(v.o["codecs"].a[i]) {
      ValidatedCodecReads(codecs[i]);
    }
    forall i | 0 <= i < |exts| ensures FilledExt(v.o["headerExtensions"].a[i]) {
      ValidatedExtReads(exts[i]);
    }
  }

  // ----- writing ------------------------------------------------------------------------------

  function FbJson(fb: Fb): Json { Obj(map["type" := Str(fb.kind), "parameter" := Str(fb.parameter)]) }

  function FbsJson(fbs: seq<Fb>): (a: seq<Json>)
    ensures |a| == |fbs| && forall i :: 0 <= i < |a| ==> a[i] == FbJson(fbs[i])
  {
    seq(|fbs|, i requires 0 <= i < |fbs| => FbJson(fbs[i]))
  }

  /** A missing payload type was copied as null. */
  function CodecJson(c: Codec): Json
  {
    var o := map[
      "mimeType" := Str(c.mimeType),
      "kind" := Str(c.kind),
      "preferredPayloadType" := if c.payloadType.Some? then Int(c.payloadType.value) else Null,
      "clockRate" := Int(c.clockRate),
      "parameters" := Obj(c.parameters),
      "rtcpFeedback" := Arr(FbsJson(c.feedback))];
    Obj(if c.channels.Some? then o["channels" := Int(c.channels.value)] else o)
  }

  function ExtJson(x: HeaderExt): Json
  {
    Obj(map["kind" := Str(x.kind), "uri" := Str(x.uri), "preferredId" := Int(x.id),
            "preferredEncrypt" := Bool(x.encrypt), "direction" := Str(x.direction)])
  }

  function CapsJson(c: Caps): Json
  {
    Obj(map["codecs" := Arr(seq(|c.codecs|, i requires 0 <= i < |c.codecs| => CodecJson(c.codecs[i]))),
            "headerExtensions" := Arr(seq(|c.exts|, i requires 0 <= i < |c.exts| => ExtJson(c.exts[i])))])
  }

  predicate Acceptable(c: Codec) { MimeKind(c.mimeType) == Some(c.kind) && ValidParameters(c.parameters) }

  lemma CodecJsonFields(c: Codec)
    ensures var o := CodecJson(c).o;
            && "mimeType" in o && o["mimeType"] == Str(c.mimeType)
            && "preferredPayloadType" in o && (o["preferredPayloadType"].Int? <==> c.payloadType.Some?)
            && "clockRate" in o && o["clockRate"] == Int(c.clockRate)
            && "parameters" in o && o["parameters"] == Obj(c.parameters)
            && "rtcpFeedback" in o && o["rtcpFeedback"] == Arr(FbsJson(c.feedback))
  {
  }

  /** A written codec passes exactly when it has a payload type. */
  lemma WrittenCodecPassesIff(c: Codec)
    requires Acceptable(c)
    ensures ValidateCodec(CodecJson(c)).Ok? <==> c.payloadType.Some?
  {
    CodecJsonFields(c);
    DefaultsKeep(CodecJson(c).o, c.kind);
    ValidateAllFixed(FbsJson(c.feedback), ValidateFeedback);
  }

  lemma WrittenExtPasses(x: HeaderExt)
    requires Named(x.kind, x.uri)
    ensures ValidateExt(ExtJson(x)) == Ok(ExtJson(x))
  {
  }

  predicate AllAcceptable(c: Caps) {
    && (forall i :: 0 <= i < |c.codecs| ==> Acceptable(c.codecs[i]))
    && (forall i :: 0 <= i < |c.exts| ==> Named(c.exts[i].kind, c.exts[i].uri))
  }

  lemma WrittenCapsPassIff(c: Caps)
    requires AllAcceptable(c)
    ensures ValidateCaps(CapsJson(c)).Ok? <==> Numbered(c.codecs)
  {
    var codecs, exts := CapsJson(c).o["codecs"].a, CapsJson(c).o["headerExtensions"].a;
    forall i | 0 <= i < |codecs| ensures ValidateCodec(codecs[i]).Ok? <==> c.codecs[i].payloadType.Some? {
      WrittenCodecPassesIff(c.codecs[i]);
    }
    forall i | 0 <= i < |exts| ensures ValidateExt(exts[i]) == Ok(exts[i]) {
      WrittenExtPasses(c.exts[i]);
    }
    ValidateAllFixed(exts, ValidateExt);
  }

  lemma FbReadsBack(fb: Fb)
    ensures ValidateFeedback(FbJson(fb)) == Ok(FbJson(fb)) && FilledFb(FbJson(fb)) && FbOf(FbJson(fb)) == fb
  {
  }

  /** A codec that is written reads back as it was. */
  lemma CodecReadsBack(c: Codec)
    requires WellFormed(c) && c.payloadType.Some?
    ensures FilledCodec(CodecJson(c)) && CodecOf(CodecJson(c)) == c
  {
    var fbs := FbsJson(c.feedback);
    forall i | 0 <= i < |fbs| ensures ValidateFeedback(fbs[i]) == Ok(fbs[i]) && FbOf(fbs[i]) == c.feedback[i] {
      FbReadsBack(c.feedback[i]);
    }
    assert Filled(CodecJson(c).o, c.kind);
    assert CodecOf(CodecJson(c)).feedback == c.feedback;
  }

  lemma ExtReadsBack(x: HeaderExt)
    requires Named(x.kind, x.uri)
    ensures FilledExt(ExtJson(x)) && ExtOf(ExtJson(x)) == x
  {
  }

  /** Capabilities that are written as JSON read back as they were. */
  lemma CapsReadBack(c: Caps)
    requires AllWellFormed(c.codecs) && Numbered(c.codecs)
    requires forall i :: 0 <= i < |c.exts| ==> Named(c.exts[i].kind, c.exts[i].uri)
    ensures FilledCaps(CapsJson(c)) && CapsOf(CapsJson(c)) == c
  {
    var codecs, exts := CapsJson(c).o["codecs"].a, CapsJson(c).o["headerExtensions"].a;
    forall i | 0 <= i < |codecs| ensures FilledCodec(codecs[i]) && CodecOf(codecs[i]) == c.codecs[i] {
      CodecReadsBack(c.codecs[i]);
    }
    forall i | 0 <= i < |exts| ensures FilledExt(exts[i]) && ExtOf(exts[i]) == c.exts[i] {
      ExtReadsBack(c.exts[i]);
    }
    assert CapsOf(CapsJson(c)).codecs == c.codecs && CapsOf(CapsJson(c)).exts == c.exts;
  }

  // ----- the closure --------------------------------------------------------------------------

  /** Every extended codec has a remote payload type. */
  predicate RemotelyNumbered(codecs: seq<ExtCodec>) { forall i :: 0 <= i < |codecs| ==> codecs[i].remotePt.Some? }

  predicate AllAcceptableCodecs(codecs: seq<Codec>) { forall i :: 0 <= i < |codecs| ==> Acceptable(codecs[i]) }

  lemma EntryAcceptable(e: ExtCodec)
    requires Good(e)
    ensures AllAcceptableCodecs(RecvEntry(e)) && (Numbered(RecvEntry(e)) <==> e.remotePt.Some?)
  {
    RtxMimeOfKind(e.mimeType, e.kind);
    assert RecvEntry(e)[0].payloadType == e.remotePt;
  }

  lemma NumberedConcat(a: seq<Codec>, b: seq<Codec>)
    ensures Numbered(a + b) <==> Numbered(a) && Numbered(b)
  {
    if Numbered(a + b) {
      forall i | 0 <= i < |a| ensures a[i].payloadType.Some? { assert (a + b)[i] == a[i]; }
      forall i | 0 <= i < |b| ensures b[i].payloadType.Some? { assert (a + b)[|a| + i] == b[i]; }
    }
  }

  lemma {:induction false} RecvCodecsAcceptable(codecs: seq<ExtCodec>)
    requires AllGood(codecs)
    ensures AllAcceptableCodecs(RecvCodecs(codecs))
    decreases |codecs|
  {
    if codecs == [] {
    } else {
      RecvCodecsAcceptable(codecs[..|codecs| - 1]);
      EntryAcceptable(codecs[|codecs| - 1]);
    }
  }

  lemma {:induction false} RecvCodecsNumbered(codecs: seq<ExtCodec>)
    requires AllGood(codecs)
    ensures Numbered(RecvCodecs(codecs)) <==> RemotelyNumbered(codecs)
    decreases |codecs|
  {
    if codecs == [] {
    } else {
      var front, e := codecs[..|codecs| - 1], codecs[|codecs| - 1];
      calc {
        Numbered(RecvCodecs(codecs));
        { NumberedConcat(RecvCodecs(front), RecvEntry(e)); }
        Numbered(RecvCodecs(front)) && Numbered(RecvEntry(e));
        { RecvCodecsNumbered(front); EntryAcceptable(e); }
        RemotelyNumbered(front) && e.remotePt.Some?;
        { assert codecs == front + [e]; }
        RemotelyNumbered(codecs);
      }
    }
  }

  predicate Named(kind: string, uri: string) { (kind == "audio" || kind == "video") && uri != "" }

  lemma {:induction false} RecvExtsNamed(exts: seq<ExtExt>)
    requires AllNamed(exts) && Directed(exts)
    ensures forall i :: 0 <= i < |RecvExts(exts)| ==> Named(RecvExts(exts)[i].kind, RecvExts(exts)[i].uri)
    decreases |exts|
  {
    if exts == [] {
    } else {
      RecvExtsNamed(exts[..|exts| - 1]);
    }
  }

  predicate AllNamed(exts: seq<ExtExt>) { forall i :: 0 <= i < |exts| ==> Named(exts[i].kind, exts[i].uri) }

  lemma {:induction false} ExtendExtsNamed(locals: seq<HeaderExt>, remotes: seq<HeaderExt>)
    requires forall i :: 0 <= i < |remotes| ==> Named(remotes[i].kind, remotes[i].uri)
    ensures AllNamed(ExtendExts(locals, remotes))
    decreases |remotes|
  {
    if remotes == [] {
    } else {
      ExtendExtsNamed(locals, remotes[1..]);
      assert Named(remotes[0].kind, remotes[0].uri);
    }
  }

  /** The same for records: receive capabilities pass exactly when every extended codec has a remote
      payload type. */
  lemma RecvCapsPassIff(e: Extended)
    requires AllGood(e.codecs) && AllNamed(e.exts) && Directed(e.exts)
    ensures ValidateCaps(CapsJson(Caps(RecvCodecs(e.codecs), RecvExts(e.exts)))).Ok? <==> RemotelyNumbered(e.codecs)
  {
    RecvCodecsAcceptable(e.codecs);
    RecvCodecsNumbered(e.codecs);
    RecvExtsNamed(e.exts);
    WrittenCapsPassIff(Caps(RecvCodecs(e.codecs), RecvExts(e.exts)));
  }

  /** The receive capabilities, written as JSON, pass the validator. */
  predicate RecvCapsPass(e: Extended)
    requires AllGood(e.codecs) && Directed(e.exts)
  {
    ValidateCaps(CapsJson(Caps(RecvCodecs(e.codecs), RecvExts(e.exts)))).Ok?
  }

  /** What negotiating two capability sets leads to, unless it throws: extended codecs of the right shape;
      directions that can be read exactly when the shared remote extensions had known ones; and then
      receive capabilities that pass the validator exactly when every extended codec has a remote payload
      type. */
  ghost predicate Closed(local: Caps, remote: Caps, h264: H264)
    requires Negotiates(local, remote, h264)
  {
    var e := ExtendedCaps(local, remote, h264);
    && AllGood(e.codecs)
    && (Directed(e.exts) <==> AllKnownIfShared(local.exts, remote.exts))
    && (Directed(e.exts) ==> (RecvCapsPass(e) <==> RemotelyNumbered(e.codecs)))
  }

  /** Closure: any two JSON capability sets that validate can be read, and if their RTX codecs carry apt,
      which the code takes for granted, the negotiation throws as `ThrowsIff` says, within the bounds of
      `ThrowsBetween`, or closes. */
  lemma ReceiveClosure(localJson: Json, remoteJson: Json, h264: H264)
    requires ValidateCaps(localJson).Ok? && ValidateCaps(remoteJson).Ok?
    ensures FilledCaps(ValidateCaps(localJson).value) && FilledCaps(ValidateCaps(remoteJson).value)
    ensures var local, remote := CapsOf(ValidateCaps(localJson).value), CapsOf(ValidateCaps(remoteJson).value);
            && (Negotiable(local, remote) <==> AptsPresent(local.codecs) && AptsPresent(remote.codecs))
            && (Negotiable(local, remote) ==>
                  (Negotiates(local, remote, h264) <==>
                     !SomeTurnThrows(local.codecs, remote.codecs, |remote.codecs|, h264)))
            && (Negotiates(local, remote, h264) ==> !SomeSearchThrows(local.codecs, remote.codecs, Always))
            && (Negotiable(local, remote) && !SomeSearchThrows(local.codecs, remote.codecs, Never) ==>
                  Negotiates(local, remote, h264))
            && (Negotiates(local, remote, h264) ==> Closed(local, remote, h264))
  {
    ValidatedCapsRead(localJson);
    ValidatedCapsRead(remoteJson);
    var local, remote := CapsOf(ValidateCaps(localJson).value), CapsOf(ValidateCaps(remoteJson).value);
    RemoteExtsNamed(ValidateCaps(remoteJson).value);
    ThrowsIff(local.codecs, remote.codecs, |remote.codecs|, h264);
    ThrowsBetween(local, remote, h264);
    if Negotiates(local, remote, h264) {
      RecordsClosure(local, remote, h264);
    }
  }

  lemma RecordsClosure(local: Caps, remote: Caps, h264: H264)
    requires Negotiates(local, remote, h264)
    requires forall i :: 0 <= i < |remote.exts| ==> Named(remote.exts[i].kind, remote.exts[i].uri)
    ensures Closed(local, remote, h264)
  {
    var e := ExtendedCaps(local, remote, h264);
    ExtendedIsGood(local, remote, h264);
    ExtendExtsNamed(local.exts, remote.exts);
    DirectedIff(local.exts, remote.exts);
    if Directed(e.exts) {
      RecvCapsPassIff(e);
    }
  }

  /** A VP9 codec with a null profile-id. */
  function NullProfile(): Json
  {
    Obj(map["mimeType" := Str("video/VP9"), "kind" := Str("video"), "clockRate" := Int(90000),
            "preferredPayloadType" := Int(98), "parameters" := Obj(map["profile-id" := Null]),
            "rtcpFeedback" := Arr([])])
  }

  /** An H264 codec with a null profile-level-id. */
  function NullH264Profile(): Json
  {
    Obj(map["mimeType" := Str("video/H264"), "kind" := Str("video"), "clockRate" := Int(90000),
            "preferredPayloadType" := Int(102), "parameters" := Obj(map["profile-level-id" := Null]),
            "rtcpFeedback" := Arr([])])
  }

  /** Capabilities with this codec alone validate, and negotiating them with themselves throws. */
  ghost predicate ValidButThrows(codec: Json, h264: H264) {
    var j := Obj(map["codecs" := Arr([codec]), "headerExtensions" := Arr([])]);
    && ValidateCaps(j) == Ok(j) && FilledCaps(j)
    && Negotiable(CapsOf(j), CapsOf(j)) && !Negotiates(CapsOf(j), CapsOf(j), h264)
  }

  lemma ClashThrows(codec: Json, h264: H264)
    requires FilledCodec(codec) && ValidateCodec(codec) == Ok(codec)
    requires Clash(CodecOf(codec), CodecOf(codec)) && !IsRtx(CodecOf(codec))
    ensures ValidButThrows(codec, h264)
  {
    var j := Obj(map["codecs" := Arr([codec]), "headerExtensions" := Arr([])]);
    var codecs := j.o["codecs"].a;
    ValidateAllFixed(codecs, ValidateCodec);
    assert j.o["codecs" := Arr(codecs)]["headerExtensions" := Arr([])] == j.o;
    var c := CapsOf(j);
    assert c.codecs == [CodecOf(codec)];
    SearchThrowsIff(c.codecs, c.codecs[0], h264);
    assert NoneMatches(c.codecs[..0], c.codecs[0], h264);
    TurnThrowsIff(c.codecs, c.codecs, 0, h264);
  }

  /** The validator lets a null profile-id and a null profile-level-id through, and the negotiation then
      throws on either. */
  lemma NullProfileThrows(h264: H264)
    ensures ValidButThrows(NullProfile(), h264) && ValidButThrows(NullH264Profile(), h264)
  {
    NullProfileClashes();
    ClashThrows(NullProfile(), h264);
    NullH264ProfileClashes();
    ClashThrows(NullH264Profile(), h264);
  }

  lemma NullProfileClashes()
    ensures FilledCodec(NullProfile()) && ValidateCodec(NullProfile()) == Ok(NullProfile())
    ensures var c := CodecOf(NullProfile()); Clash(c, c) && !IsRtx(c)
  {
    var mime := "video/VP9";
    assert mime[..5] == "video" && Lower(mime[..5]) == "video";
    assert MimeKind(mime) == Some("video");
    FilledIsFixed(NullProfile().o, "video");
    assert Lower(mime) == "video/vp9";
  }

  lemma NullH264ProfileClashes()
    ensures FilledCodec(NullH264Profile()) && ValidateCodec(NullH264Profile()) == Ok(NullH264Profile())
    ensures var c := CodecOf(NullH264Profile()); Clash(c, c) && !IsRtx(c)
  {
    var mime := "video/H264";
    assert mime[..5] == "video" && Lower(mime[..5]) == "video";
    assert MimeKind(mime) == Some("video");
    FilledIsFixed(NullH264Profile().o, "video");
    assert Lower(mime) == "video/h264";
  }

  lemma RemoteExtsNamed(j: Json)
    requires FilledCaps(j)
    ensures var c := CapsOf(j); forall i :: 0 <= i < |c.exts| ==> Named(c.exts[i].kind, c.exts[i].uri)
  {
  }

  /** In terms of the input: that is, when every remote codec that is kept came with a payload type. */
  lemma RemotelyNumberedIff(local: Caps, remote: Caps, h264: H264)
    requires Negotiates(local, remote, h264)
    ensures RemotelyNumbered(ExtendedCaps(local, remote, h264).codecs) <==>
            forall i :: 0 <= i < |remote.codecs| && Kept(local.codecs, remote.codecs, i, h264) ==>
              remote.codecs[i].payloadType.Some?
  {
    var o := Origins(local.codecs, remote.codecs, |remote.codecs|, h264);
    var e := ExtendedCaps(local, remote, h264).codecs;
    ExtendedFollowsRemoteOrder(local, remote, h264);
    assert forall a :: 0 <= a < |o| ==> ExtendedFrom(local, remote, o[a], e[a], h264);
    if RemotelyNumbered(e) {
      forall i | 0 <= i < |remote.codecs| && Kept(local.codecs, remote.codecs, i, h264)
        ensures remote.codecs[i].payloadType.Some? {
        var a :| 0 <= a < |o| && o[a] == i;
        assert e[a].remotePt.Some?;
      }
    }
  }
}
