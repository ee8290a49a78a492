/**
  The two capability objects after a negotiation, which works on them in place: H264 profiles are
  rewritten, and looking up a payload type that is not there puts a null in its place. Whether the objects
  left behind validate again (src/ortc.cpp).
 */
module OrtcAgain {
  import opened Text
  import opened Validators
  import opened Ortc
  import opened OrtcParams
  import opened OrtcJson

  /** The RTX turn for `e` finds a codec on both sides. */
  predicate RtxOnBothSides(local: Caps, remote: Caps, e: ExtCodec)
    requires Negotiable(local, remote)
  {
    FirstRtx(local.codecs, e.localPt) < |local.codecs| && FirstRtx(remote.codecs, e.remotePt) < |remote.codecs|
  }

  /** The payload type of local codec `k` is looked up: as the partner of a remote codec, or as an RTX codec
      that is found together with one on the other side. */
  ghost predicate LocalLookedUp(local: Caps, remote: Caps, k: nat, h264: H264)
    requires Negotiates(local, remote, h264)
  {
    var e := ExtendedCaps(local, remote, h264).codecs;
    || (exists i :: 0 <= i < |remote.codecs| && FindsPartner(local.codecs, remote.codecs, i, h264)
                    && Partner(local.codecs, remote.codecs, i, h264) == k)
    || (exists a :: 0 <= a < |e| && RtxOnBothSides(local, remote, e[a])
                    && FirstRtx(local.codecs, e[a].localPt) == k)
  }

  ghost predicate RemoteLookedUp(local: Caps, remote: Caps, i: nat, h264: H264)
    requires Negotiates(local, remote, h264)
  {
    var e := ExtendedCaps(local, remote, h264).codecs;
    || (i < |remote.codecs| && FindsPartner(local.codecs, remote.codecs, i, h264))
    || (exists a :: 0 <= a < |e| && RtxOnBothSides(local, remote, e[a])
                    && FirstRtx(remote.codecs, e[a].remotePt) == i)
  }

  /** A codec object after the negotiation that left `c` of it. */
  function LeftCodec(j: Json, c: Codec, lookedUp: bool): Json
    requires FilledCodec(j)
  {
    var o := j.o["parameters" := Obj(c.parameters)];
    Obj(if lookedUp && "preferredPayloadType" !in o then o["preferredPayloadType" := Null] else o)
  }

  predicate AllFilled(js: seq<Json>) { forall i :: 0 <= i < |js| ==> FilledCodec(js[i]) }

  function LeftCodecs(js: seq<Json>, codecs: seq<Codec>, lookedUp: set<nat>): (lefts: seq<Json>)
    requires AllFilled(js) && |codecs| == |js|
    ensures |lefts| == |js| && forall i :: 0 <= i < |js| ==> lefts[i] == LeftCodec(js[i], codecs[i], i in lookedUp)
  {
    seq(|js|, i requires 0 <= i < |js| => LeftCodec(js[i], codecs[i], i in lookedUp))
  }

  function LeftCaps(j: Json, codecs: seq<Codec>, lookedUp: set<nat>): Json
    requires FilledCaps(j) && |codecs| == |j.o["codecs"].a|
  {
    Obj(j.o["codecs" := Arr(LeftCodecs(j.o["codecs"].a, codecs, lookedUp))])
  }

  ghost function LocalReads(local: Caps, remote: Caps, h264: H264): set<nat>
    requires Negotiates(local, remote, h264)
  {
    set k | 0 <= k < |local.codecs| && LocalLookedUp(local, remote, k, h264)
  }

  ghost function RemoteReads(local: Caps, remote: Caps, h264: H264): set<nat>
    requires Negotiates(local, remote, h264)
  {
    set i | 0 <= i < |remote.codecs| && RemoteLookedUp(local, remote, i, h264)
  }

  /** `c` is the codec `j` with other, valid parameters. */
  predicate Reparameterized(j: Json, c: Codec)
    requires FilledCodec(j)
  {
    ValidParameters(c.parameters) && c == CodecOf(j).(parameters := c.parameters)
  }

  /** A codec left behind validates, and reads as what is left of it, unless a missing payload type was
      looked up. */
  lemma LeftCodecValidIff(j: Json, c: Codec, lookedUp: bool)
    requires FilledCodec(j) && Reparameterized(j, c)
    ensures var left := LeftCodec(j, c, lookedUp);
            && (ValidateCodec(left).Ok? <==> (lookedUp ==> CodecOf(j).payloadType.Some?))
            && (ValidateCodec(left).Ok? ==>
                  ValidateCodec(left) == Ok(left) && FilledCodec(left) && CodecOf(left) == c)
  {
    var left := LeftCodec(j, c, lookedUp);
    if lookedUp && "preferredPayloadType" !in j.o {
      assert left.o["preferredPayloadType"] == Null && left.o["mimeType"] == j.o["mimeType"];
    } else {
      assert Filled(left.o, j.o["kind"].s);
      FilledIsFixed(left.o, j.o["kind"].s);
      assert CodecOf(left).feedback == CodecOf(j).feedback;
    }
  }

  lemma FilledExtIsFixed(j: Json)
    requires FilledExt(j)
    ensures ValidateExt(j) == Ok(j)
  {
  }

  predicate AllReparameterized(js: seq<Json>, codecs: seq<Codec>)
    requires AllFilled(js)
  {
    |codecs| == |js| && forall i :: 0 <= i < |js| ==> Reparameterized(js[i], codecs[i])
  }

  /** The codecs whose payload type was looked up came with one. */
  predicate ReadsNumbered(codecs: seq<Codec>, lookedUp: set<nat>) {
    forall i :: 0 <= i < |codecs| && i in lookedUp ==> codecs[i].payloadType.Some?
  }

  /** Validation changes nothing and reads `caps`. */
  predicate ReadsAs(left: Json, caps: Caps) {
    ValidateCaps(left) == Ok(left) && FilledCaps(left) && CapsOf(left) == caps
  }

  lemma LeftCodecsInvalid(js: seq<Json>, codecs: seq<Codec>, lookedUp: set<nat>)
    requires AllFilled(js) && AllReparameterized(js, codecs) && !ReadsNumbered(codecs, lookedUp)
    ensures ValidateAll(LeftCodecs(js, codecs, lookedUp), ValidateCodec).Err?
  {
    var i :| 0 <= i < |codecs| && i in lookedUp && codecs[i].payloadType.None?;
    LeftCodecValidIff(js[i], codecs[i], true);
    assert ValidateCodec(LeftCodecs(js, codecs, lookedUp)[i]).Err?;
  }

  predicate AllReadAs(lefts: seq<Json>, codecs: seq<Codec>) {
    |lefts| == |codecs| && forall i :: 0 <= i < |lefts| ==> FilledCodec(lefts[i]) && CodecOf(lefts[i]) == codecs[i]
  }

  lemma LeftCodecsValid(js: seq<Json>, codecs: seq<Codec>, lookedUp: set<nat>)
    requires AllFilled(js) && AllReparameterized(js, codecs) && ReadsNumbered(codecs, lookedUp)
    ensures var lefts := LeftCodecs(js, codecs, lookedUp);
            ValidateAll(lefts, ValidateCodec) == Ok(lefts) && AllReadAs(lefts, codecs)
  {
    var lefts := LeftCodecs(js, codecs, lookedUp);
    forall i | 0 <= i < |js|
      ensures ValidateCodec(lefts[i]) == Ok(lefts[i]) && FilledCodec(lefts[i]) && CodecOf(lefts[i]) == codecs[i]
    {
      LeftCodecValidIff(js[i], codecs[i], i in lookedUp);
    }
    ValidateAllFixed(lefts, ValidateCodec);
  }

  lemma FilledExtsFixed(exts: seq<Json>)
    requires forall i :: 0 <= i < |exts| ==> FilledExt(exts[i])
    ensures ValidateAll(exts, ValidateExt) == Ok(exts)
  {
    forall i | 0 <= i < |exts| ensures ValidateExt(exts[i]) == Ok(exts[i]) {
      FilledExtIsFixed(exts[i]);
    }
    ValidateAllFixed(exts, ValidateExt);
  }

  lemma LeftCapsReadAs(j: Json, lefts: seq<Json>, codecs: seq<Codec>)
    requires FilledCaps(j) && ValidateAll(lefts, ValidateCodec) == Ok(lefts) && AllReadAs(lefts, codecs)
    ensures ReadsAs(Obj(j.o["codecs" := Arr(lefts)]), Caps(codecs, CapsOf(j).exts))
  {
    var left := Obj(j.o["codecs" := Arr(lefts)]);
    var exts := j.o["headerExtensions"].a;
    FilledExtsFixed(exts);
    assert left.o["headerExtensions"] == Arr(exts) && left.o["codecs"] == Arr(lefts);
    assert left.o["codecs" := Arr(lefts)]["headerExtensions" := Arr(exts)] == left.o;
    assert CapsOf(left).codecs == codecs;
    assert CapsOf(left).exts == CapsOf(j).exts;
  }

  lemma LeftCapsValidIff(j: Json, codecs: seq<Codec>, lookedUp: set<nat>)
    requires FilledCaps(j) && AllReparameterized(j.o["codecs"].a, codecs)
    ensures var left := LeftCaps(j, codecs, lookedUp);
            && (ValidateCaps(left).Ok? <==> ReadsNumbered(codecs, lookedUp))
            && (ValidateCaps(left).Ok? ==> ReadsAs(left, Caps(codecs, CapsOf(j).exts)))
  {
    var js := j.o["codecs"].a;
    if ReadsNumbered(codecs, lookedUp) {
      LeftCodecsValid(js, codecs, lookedUp);
      LeftCapsReadAs(j, LeftCodecs(js, codecs, lookedUp), codecs);
    } else {
      LeftCodecsInvalid(js, codecs, lookedUp);
    }
  }

  lemma SameButProfileIsOtherParameters(a: Codec, b: Codec)
    requires SameButProfile(a, b)
    ensures b == a.(parameters := b.parameters)
  {
  }

  /** All but the parameters of the codecs is left alone, and the parameters stay valid. */
  lemma RewritingReparameterizes(localJson: Json, remoteJson: Json, h264: H264)
    requires FilledCaps(localJson) && FilledCaps(remoteJson)
    ensures var m := FinalMatching(CapsOf(localJson), CapsOf(remoteJson), h264);
            && AllReparameterized(localJson.o["codecs"].a, m.locals)
            && AllReparameterized(remoteJson.o["codecs"].a, m.remotes)
  {
    var local, remote := CapsOf(localJson).codecs, CapsOf(remoteJson).codecs;
    var m := FinalMatching(CapsOf(localJson), CapsOf(remoteJson), h264);
    RewritingIsProfileOnly(local, remote, |remote|, h264);
    MatchingKeeps(local, remote, |remote|, h264);
    forall k | 0 <= k < |local| ensures Reparameterized(localJson.o["codecs"].a[k], m.locals[k]) {
      SameButProfileIsOtherParameters(local[k], m.locals[k]);
    }
    forall i | 0 <= i < |remote| ensures Reparameterized(remoteJson.o["codecs"].a[i], m.remotes[i]) {
      SameButProfileIsOtherParameters(remote[i], m.remotes[i]);
    }
  }

  lemma ReadsNumberedStays(a: seq<Codec>, b: seq<Codec>, lookedUp: set<nat>)
    requires AllSameButProfile(a, b)
    ensures ReadsNumbered(a, lookedUp) <==> ReadsNumbered(b, lookedUp)
  {
    assert forall i :: 0 <= i < |a| ==> SameButProfile(a[i], b[i]) && a[i].payloadType == b[i].payloadType;
  }

  /** After a negotiation that goes through, either object validates again exactly when every codec of it
      whose payload type was looked up came with one; then validation changes nothing more, and what it
      reads is what the matching left. */
  lemma LeftBehindValidIff(localJson: Json, remoteJson: Json, h264: H264)
    requires FilledCaps(localJson) && FilledCaps(remoteJson)
    requires Negotiates(CapsOf(localJson), CapsOf(remoteJson), h264)
    ensures var local, remote := CapsOf(localJson), CapsOf(remoteJson);
            var m := FinalMatching(local, remote, h264);
            && (var left := LeftCaps(localJson, m.locals, LocalReads(local, remote, h264));
                && (ValidateCaps(left).Ok? <==> ReadsNumbered(local.codecs, LocalReads(local, remote, h264)))
                && (ValidateCaps(left).Ok? ==> ReadsAs(left, Caps(m.locals, local.exts))))
            && (var left := LeftCaps(remoteJson, m.remotes, RemoteReads(local, remote, h264));
                && (ValidateCaps(left).Ok? <==> ReadsNumbered(remote.codecs, RemoteReads(local, remote, h264)))
                && (ValidateCaps(left).Ok? ==> ReadsAs(left, Caps(m.remotes, remote.exts))))
  {
    var local, remote := CapsOf(localJson), CapsOf(remoteJson);
    var m := FinalMatching(local, remote, h264);
    RewritingReparameterizes(localJson, remoteJson, h264);
    RewritingIsProfileOnly(local.codecs, remote.codecs, |remote.codecs|, h264);
    ReadsNumberedStays(local.codecs, m.locals, LocalReads(local, remote, h264));
    ReadsNumberedStays(remote.codecs, m.remotes, RemoteReads(local, remote, h264));
    LeftCapsValidIff(localJson, m.locals, LocalReads(local, remote, h264));
    LeftCapsValidIff(remoteJson, m.remotes, RemoteReads(local, remote, h264));
  }

  /** An opus codec without a payload type, which the validator does not ask for. */
  function Unnumbered(): Json
  {
    Obj(map["mimeType" := Str("audio/opus"), "kind" := Str("audio"), "clockRate" := Int(48000),
            "channels" := Int(2), "parameters" := Obj(map[]), "rtcpFeedback" := Arr([])])
  }

  function UnnumberedCaps(): Json { Obj(map["codecs" := Arr([Unnumbered()]), "headerExtensions" := Arr([])]) }

  lemma UnnumberedIsFilled()
    ensures FilledCodec(Unnumbered())
    ensures var c := CodecOf(Unnumbered());
            !IsRtx(c) && !IsH264(c) && !IsVp9(c) && c.payloadType.None? && c.mimeType == "audio/opus"
  {
    var mime := "audio/opus";
    assert mime[..5] == "audio" && Lower(mime[..5]) == "audio";
    assert MimeKind(mime) == Some("audio");
    assert Lower(mime) == "audio/opus";
  }

  /** One codec that matches itself negotiates, and its payload type is looked up on both sides. */
  lemma AloneIsLookedUp(c: Codec, h264: H264)
    requires WellFormed(c) && !IsRtx(c) && !IsH264(c) && !IsVp9(c)
    ensures var caps := Caps([c], []);
            Negotiates(caps, caps, h264) && 0 in LocalReads(caps, caps, h264) && 0 in RemoteReads(caps, caps, h264)
  {
    var caps := Caps([c], []);
    assert Matches(c, c, h264) && !Clash(c, c);
    assert MatchUpTo([c], [c], 0, h264).locals == [c];
    assert MatchUpTo([c], [c], 1, h264) == MatchOne(MatchUpTo([c], [c], 0, h264), 0, h264);
    assert FindsPartner([c], [c], 0, h264) && Partner([c], [c], 0, h264) == 0;
  }

  /** Such capabilities negotiate, and do not validate again. */
  lemma UnnumberedNotValidAgain(h264: H264)
    ensures FilledCaps(UnnumberedCaps()) && Negotiates(CapsOf(UnnumberedCaps()), CapsOf(UnnumberedCaps()), h264)
    ensures var j := UnnumberedCaps();
            var m := FinalMatching(CapsOf(j), CapsOf(j), h264);
            && ValidateCaps(LeftCaps(j, m.locals, LocalReads(CapsOf(j), CapsOf(j), h264))).Err?
            && ValidateCaps(LeftCaps(j, m.remotes, RemoteReads(CapsOf(j), CapsOf(j), h264))).Err?
  {
    UnnumberedIsFilled();
    var j := UnnumberedCaps();
    var c := CodecOf(Unnumbered());
    assert CapsOf(j) == Caps([c], []);
    AloneIsLookedUp(c, h264);
    assert [c][0].payloadType.None?;
    LeftBehindValidIff(j, j, h264);
  }
}
