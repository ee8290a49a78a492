/**
  Media sections of the remote SDP (src/sdp/MediaSection.cpp): the object each section carries,
  how the two constructors build it, and the methods that change it in place.
 */
module MediaSections {
  import opened Text
  import opened Ssrc

  /** Remote ICE parameters; `lite` says whether the key "iceLite" is present. */
  datatype Ice = Ice(ufrag: string, pwd: string, lite: bool)

  datatype Ext = Ext(uri: string, id: int)
  datatype Rid = Rid(id: string, direction: string)

  /** The parts of a local offer's media object that an answer section reads. */
  datatype OfferedMedia = OfferedMedia(
    mid: string, kind: string, protocol: string, extUris: seq<string>, extmapAllowMixed: bool,
    simulcast: Option<string>, rids: seq<Rid>)

  /** The parts of RTP parameters that a section reads; the encoding is the first one. */
  datatype RtpParams = RtpParams(
    payloadTypes: seq<int>, headerExtensions: seq<Ext>, encoding: Encoding, cname: Option<string>)

  /** A section's JSON object. `answer` tells the two subclasses apart; an erased or never written
      key is `None`. */
  datatype MediaObject = MediaObject(
    answer: bool, mid: string, kind: string, protocol: string, port: nat, setup: Option<string>,
    direction: Option<string>, iceUfrag: string, icePwd: string, payloads: seq<int>,
    ext: Option<seq<Ext>>, ssrcs: Option<seq<SsrcLine>>, ssrcGroups: Option<seq<SsrcGroup>>,
    simulcast: Option<string>, rids: Option<seq<Rid>>, extmapAllowMixed: bool)
  {
    predicate Closed() { port == 0 }
  }

  /** The setup attribute a DTLS role stands for; other strings leave the attribute unwritten. */
  function SetupFor(role: string): Option<string>
  {
    if role == "client" then Some("active")
    else if role == "server" then Some("passive")
    else if role == "auto" then Some("actpass")
    else None
  }

  predicate Media(kind: string) { kind == "audio" || kind == "video" }

  /** The answered header extensions whose URI the offer also has. */
  function OfferedExts(exts: seq<Ext>, uris: seq<string>): seq<Ext>
  {
    if exts == [] then []
    else (if exts[0].uri in uris then [exts[0]] else []) + OfferedExts(exts[1..], uris)
  }

  /** The ids of the offered send RIDs, now to be received. */
  function RecvRids(rids: seq<Rid>): seq<Rid>
  {
    if rids == [] then []
    else (if rids[0].direction == "send" then [Rid(rids[0].id, "recv")] else []) + RecvRids(rids[1..])
  }

  /** The payload types as the section lists them: each is cast to `uint8_t`. */
  function Payloads(types: seq<int>): (listed: seq<int>)
    ensures |listed| == |types| && forall i :: 0 <= i < |types| ==> listed[i] == types[i] % 256
  {
    seq(|types|, i requires 0 <= i < |types| => types[i] % 256)
  }

  function AnswerObject(ice: Ice, role: string, offer: OfferedMedia, params: RtpParams): MediaObject
  {
    var m := Media(offer.kind);
    var sim := m && offer.simulcast.Some?;
    MediaObject(true, offer.mid, offer.kind, offer.protocol, 7, SetupFor(role),
                if m then Some("recvonly") else None, ice.ufrag, ice.pwd,
                if m then Payloads(params.payloadTypes) else [],
                if m then Some(OfferedExts(params.headerExtensions, offer.extUris)) else None,
                None, None,
                if sim then offer.simulcast else None,
                if sim then Some(RecvRids(offer.rids)) else None,
                m && offer.extmapAllowMixed)
  }

  function OfferObject(
    ice: Ice, sctp: bool, mid: string, kind: string, params: RtpParams, streamId: string, trackId: string)
    : MediaObject
  {
    var m := Media(kind);
    var ssrc := OfferLines(params.encoding, params.cname, streamId, trackId);
    MediaObject(false, mid, kind, if sctp then "UDP/DTLS/SCTP" else "UDP/TLS/RTP/SAVPF", 7, Some("actpass"),
                if m then Some("sendonly") else None, ice.ufrag, ice.pwd,
                if m then Payloads(params.payloadTypes) else [],
                if m then Some(params.headerExtensions) else None,
                if m then Some(ssrc.lines) else None, if m then ssrc.groups else None,
                None, None, false)
  }

  // ----- what a new section says ----------------------------------------------------------------

  function OfferedAlso(uris: seq<string>): Ext -> bool { (x: Ext) => x.uri in uris }

  lemma {:induction false} OfferedExtsSelect(exts: seq<Ext>, uris: seq<string>)
    ensures OfferedExts(exts, uris) == Select(exts, OfferedAlso(uris))
  {
    if exts == [] {
    } else {
      OfferedExtsSelect(exts[1..], uris);
    }
  }

  function ToSend(): Rid -> bool { (r: Rid) => r.direction == "send" }

  lemma {:induction false} RecvRidsSelect(rids: seq<Rid>)
    ensures var sel := Select(rids, ToSend());
            |RecvRids(rids)| == |sel| && forall i :: 0 <= i < |sel| ==> RecvRids(rids)[i] == Rid(sel[i].id, "recv")
  {
    if rids == [] {
    } else {
      RecvRidsSelect(rids[1..]);
    }
  }

  predicate Cut8(types: seq<int>, listed: seq<int>) {
    |listed| == |types| && forall i :: 0 <= i < |types| ==> listed[i] == types[i] % 256
  }

  /** An answer to an offered section: open, under its mid; an audio or video section is to be received, lists
      the payload types, and has the extensions and, turned around, the RIDs that were offered too. */
  ghost predicate Answers(o: MediaObject, offer: OfferedMedia, params: RtpParams) {
    && o.answer && o.mid == offer.mid && o.kind == offer.kind && o.protocol == offer.protocol && o.port == 7
    && o.ssrcs == None && o.ssrcGroups == None
    && if offer.kind == "audio" || offer.kind == "video" then
         && o.direction == Some("recvonly") && Cut8(params.payloadTypes, o.payloads)
         && o.ext == Some(Select(params.headerExtensions, OfferedAlso(offer.extUris)))
         && o.extmapAllowMixed == offer.extmapAllowMixed && o.simulcast == offer.simulcast
         && (o.rids.Some? <==> offer.simulcast.Some?)
         && (o.rids.Some? ==> RidsTurned(offer.rids, o.rids.value))
       else o.direction == None && o.payloads == [] && o.ext == None && o.rids == None && o.simulcast == None
  }

  predicate RidsTurned(offered: seq<Rid>, rids: seq<Rid>) {
    var sel := Select(offered, ToSend());
    |rids| == |sel| && forall i :: 0 <= i < |sel| ==> rids[i] == Rid(sel[i].id, "recv")
  }

  lemma AnswerAnswers(ice: Ice, role: string, offer: OfferedMedia, params: RtpParams)
    ensures Answers(AnswerObject(ice, role, offer, params), offer, params)
  {
    OfferedExtsSelect(params.headerExtensions, offer.extUris);
    RecvRidsSelect(offer.rids);
  }

  /** An offer of a track: open, under the mid; it is sent, and its SSRC lines give the stream of the encoding
      and of its retransmission, if there is one, the cname and the stream and track ids. */
  ghost predicate Offers(
    o: MediaObject, mid: string, kind: string, params: RtpParams, streamId: string, trackId: string)
  {
    && !o.answer && o.mid == mid && o.kind == kind && o.protocol == "UDP/TLS/RTP/SAVPF" && o.port == 7
    && o.simulcast == None && o.rids == None
    && if kind == "audio" || kind == "video" then
         && o.direction == Some("sendonly") && Cut8(params.payloadTypes, o.payloads)
         && o.ext == Some(params.headerExtensions) && o.ssrcs.Some? && o.ssrcGroups.Some?
         && (if params.cname == None then o.ssrcs.value == [] && o.ssrcGroups.value == []
             else StreamLines(o.ssrcs.value, o.ssrcGroups.value, params.encoding, params.cname.value,
                              streamId + " " + trackId))
       else o.direction == None && o.payloads == [] && o.ext == None && o.ssrcs == None
  }

  predicate StreamLines(lines: seq<SsrcLine>, groups: seq<SsrcGroup>, e: Encoding, cname: string, msid: string) {
    var media := [SsrcLine(e.ssrc, Some("cname"), cname), SsrcLine(e.ssrc, Some("msid"), msid)];
    if e.rtx == None || e.rtx == Some(0) then lines == media && groups == []
    else
      var rtx := e.rtx.value;
      && lines == media + [SsrcLine(rtx, Some("cname"), cname), SsrcLine(rtx, Some("msid"), msid)]
      && groups == [SsrcGroup("FID", Decimal(e.ssrc) + " " + Decimal(rtx))]
  }

  lemma LinesForOne(id: uint32, cname: string, msid: string)
    ensures LinesFor([id], cname, msid) == [SsrcLine(id, Some("cname"), cname), SsrcLine(id, Some("msid"), msid)]
  {
    assert LinesFor([id][..0], cname, msid) == [];
  }

  lemma OfferOffers(ice: Ice, mid: string, kind: string, params: RtpParams, streamId: string, trackId: string)
    ensures var o := OfferObject(ice, false, mid, kind, params, streamId, trackId);
            Offers(o, mid, kind, params, streamId, trackId)
  {
    if params.cname.Some? {
      var msid := streamId + " " + trackId;
      LinesForOne(params.encoding.ssrc, params.cname.value, msid);
      if RtxOf(params.encoding) != [] {
        LinesForOne(params.encoding.rtx.value, params.cname.value, msid);
      }
    }
  }

  function WithIce(m: MediaObject, ice: Ice): MediaObject { m.(iceUfrag := ice.ufrag, icePwd := ice.pwd) }

  function WithRole(m: MediaObject, role: string): MediaObject
  {
    if !m.answer then m.(setup := Some("actpass"))
    else if SetupFor(role).Some? then m.(setup := SetupFor(role))
    else m
  }

  function Disabled(m: MediaObject): MediaObject
  {
    m.(direction := Some("inactive"), ext := None, ssrcs := None, ssrcGroups := None, simulcast := None, rids := None)
  }

  function ClosedObject(m: MediaObject): MediaObject
  {
    Disabled(m).(port := 0, extmapAllowMixed := false)
  }

  /** The header extension loop of the answer constructor. */
  method KeepOffered(exts: seq<Ext>, uris: seq<string>) returns (kept: seq<Ext>)
    ensures kept == OfferedExts(exts, uris)
  {
    kept := [];
    var rest := exts;
    while rest != []
      invariant kept + OfferedExts(rest, uris) == OfferedExts(exts, uris)
      decreases |rest|
    {
      if rest[0].uri in uris {
        kept := kept + [rest[0]];
      }
      rest := rest[1..];
    }
  }

  /** The loop over the codecs that lists the payload types. */
  method WritePayloads(types: seq<int>) returns (listed: seq<int>)
    ensures listed == Payloads(types)
  {
    listed := [];
    for i := 0 to |types|
      invariant listed == Payloads(types)[..i]
    {
      listed := listed + [types[i] % 256];
    }
  }

  /** The RID loop of the answer constructor. */
  method TurnRids(rids: seq<Rid>) returns (turned: seq<Rid>)
    ensures turned == RecvRids(rids)
  {
    turned := [];
    var rest := rids;
    while rest != []
      invariant turned + RecvRids(rest) == RecvRids(rids)
      decreases |rest|
    {
      if rest[0].direction == "send" {
        turned := turned + [Rid(rest[0].id, "recv")];
      }
      rest := rest[1..];
    }
  }

  class MediaSection {
    var mediaObject: MediaObject

    constructor Answer(ice: Ice, role: string, offer: OfferedMedia, params: RtpParams)
      ensures mediaObject == AnswerObject(ice, role, offer, params)
    {
      var setup := None;
      if role == "client" { setup := Some("active"); }
      else if role == "server" { setup := Some("passive"); }
      else if role == "auto" { setup := Some("actpass"); }
      var m := MediaObject(true, offer.mid, offer.kind, offer.protocol, 7, setup, None, ice.ufrag, ice.pwd, [],
                           None, None, None, None, None, false);
      if offer.kind == "audio" || offer.kind == "video" {
        var exts := KeepOffered(params.headerExtensions, offer.extUris);
        var payloads := WritePayloads(params.payloadTypes);
        m := m.(direction := Some("recvonly"), payloads := payloads, ext := Some(exts),
                extmapAllowMixed := offer.extmapAllowMixed);
        if offer.simulcast.Some? {
          var rids := TurnRids(offer.rids);
          m := m.(simulcast := offer.simulcast, rids := Some(rids));
        }
      }
      mediaObject := m;
    }

    constructor Offer(ice: Ice, sctp: bool, mid: string, kind: string, params: RtpParams,
                      streamId: string, trackId: string)
      ensures mediaObject == OfferObject(ice, sctp, mid, kind, params, streamId, trackId)
    {
      var protocol := if sctp then "UDP/DTLS/SCTP" else "UDP/TLS/RTP/SAVPF";
      var m := MediaObject(false, mid, kind, protocol, 7, Some("actpass"), None, ice.ufrag, ice.pwd, [],
                           None, None, None, None, None, false);
      if kind == "audio" || kind == "video" {
        var ssrc := OfferLines(params.encoding, params.cname, streamId, trackId);
        var payloads := WritePayloads(params.payloadTypes);
        m := m.(direction := Some("sendonly"), payloads := payloads,
                ext := Some(params.headerExtensions), ssrcs := Some(ssrc.lines), ssrcGroups := ssrc.groups);
      }
      mediaObject := m;
    }

    method SetIceParameters(ice: Ice)
      modifies this
      ensures mediaObject == WithIce(old(mediaObject), ice)
    {
      mediaObject := mediaObject.(iceUfrag := ice.ufrag);
      mediaObject := mediaObject.(icePwd := ice.pwd);
    }

    method SetDtlsRole(role: string)
      modifies this
      ensures mediaObject == WithRole(old(mediaObject), role)
    {
      if !mediaObject.answer {
        mediaObject := mediaObject.(setup := Some("actpass"));
      } else if role == "client" {
        mediaObject := mediaObject.(setup := Some("active"));
      } else if role == "server" {
        mediaObject := mediaObject.(setup := Some("passive"));
      } else if role == "auto" {
        mediaObject := mediaObject.(setup := Some("actpass"));
      }
    }

    method Disable()
      modifies this
      ensures mediaObject == Disabled(old(mediaObject))
    {
      mediaObject := mediaObject.(direction := Some("inactive"));
      mediaObject := mediaObject.(ext := None, ssrcs := None, ssrcGroups := None, simulcast := None, rids := None);
    }

    method Close()
      modifies this
      ensures mediaObject == ClosedObject(old(mediaObject))
    {
      mediaObject := mediaObject.(direction := Some("inactive"), port := 0);
      mediaObject := mediaObject.(ext := None, ssrcs := None, ssrcGroups := None, simulcast := None, rids := None,
                                  extmapAllowMixed := false);
    }
  }
}
