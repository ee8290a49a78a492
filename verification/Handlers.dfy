/**
  The classes `Handler`, `SendHandler` and `RecvHandler` (src/Handler.cpp) in one class: the subclasses
  add methods, and no fields that matter here. A handler owns its `RemoteSdp` object and, through it, the
  media sections. Each method takes the steps of the code; the PeerConnection calls in between stand for
  a negotiation that succeeds.
 */
module Handlers {
  import opened Text
  import opened MediaSections
  import opened RemoteSdps
  import S = RemoteSdpModel
  import M = HandlerModel

  class Handler {
    const remoteSdp: RemoteSdp
    var mapMidTransceiver: map<string, string>
    var transportReady: bool
    var hasDataChannelMediaSection: bool
    var forcedLocalDtlsRole: string
    var nextSendSctpStreamId: nat

    ghost function State(): M.Handler
      reads this, remoteSdp, remoteSdp.Sections()
    {
      M.Handler(remoteSdp.State(), mapMidTransceiver, transportReady, hasDataChannelMediaSection,
                forcedLocalDtlsRole, nextSendSctpStreamId)
    }

    ghost predicate Valid()
      reads this, remoteSdp, remoteSdp.Sections()
    {
      remoteSdp.Valid() && M.Sound(State())
    }

    constructor (ice: Ice, role: Option<string>)
      ensures Valid() && State() == M.NewHandler(ice, role) && fresh(remoteSdp) && remoteSdp.mediaSections == []
    {
      remoteSdp := new RemoteSdp(ice, if role.Some? then role.value else "");
      mapMidTransceiver, transportReady, hasDataChannelMediaSection := map[], false, false;
      forcedLocalDtlsRole, nextSendSctpStreamId := "", 0;
      if role.Some? && role.value != "auto" {
        forcedLocalDtlsRole := if role.value == "server" then "client" else "server";
      }
    }

    method SetupTransport(localDtlsRole: string)
      requires remoteSdp.Valid()
      modifies this`transportReady, remoteSdp, remoteSdp.Sections()
      ensures remoteSdp.Valid() && remoteSdp.mediaSections == old(remoteSdp.mediaSections)
      ensures State() == old(State()).(
                sdp := S.UpdateRole(old(State()).sdp, if localDtlsRole == "client" then "server" else "client"),
                ready := true)
    {
      var remoteDtlsRole := if localDtlsRole == "client" then "server" else "client";
      remoteSdp.UpdateDtlsRole(remoteDtlsRole);
      transportReady := true;
    }

    /** The guarded call of `SetupTransport` in every negotiation. */
    method EnsureTransport(defaultRole: string)
      requires remoteSdp.Valid()
      modifies this`transportReady, remoteSdp, remoteSdp.Sections()
      ensures remoteSdp.Valid() && remoteSdp.mediaSections == old(remoteSdp.mediaSections)
      ensures State() == M.Setup(old(State()), defaultRole)
    {
      if !transportReady {
        SetupTransport(if forcedLocalDtlsRole != "" then forcedLocalDtlsRole else defaultRole);
      }
    }

    /** The offer that a new consumer starts its negotiation with. */
    method OfferMedia(mid: string, kind: string, params: RtpParams, streamId: string, trackId: string)
      requires remoteSdp.Valid()
      modifies remoteSdp
      ensures remoteSdp.Valid() && fresh(remoteSdp.Sections() - old(remoteSdp.Sections()))
      ensures remoteSdp.State() == S.Render(S.Receive(old(remoteSdp.State()), mid, kind, params, streamId, trackId))
    {
      remoteSdp.Receive(mid, kind, params, streamId, trackId);
      var _, _, _ := remoteSdp.GetSdp();
    }

    method OfferData()
      requires remoteSdp.Valid()
      modifies remoteSdp
      ensures remoteSdp.Valid() && fresh(remoteSdp.Sections() - old(remoteSdp.Sections()))
      ensures remoteSdp.State() == S.Render(S.RecvSctp(old(remoteSdp.State())))
    {
      remoteSdp.RecvSctpAssociation();
      var _, _, _ := remoteSdp.GetSdp();
    }

    /** The answer that ends the negotiation of a new producer. */
    method AnswerMedia(offer: OfferedMedia, reuseMid: string, params: RtpParams)
      requires remoteSdp.Valid() && (reuseMid != "" ==> remoteSdp.mediaSections != [])
      modifies remoteSdp
      ensures remoteSdp.Valid() && fresh(remoteSdp.Sections() - old(remoteSdp.Sections()))
      ensures remoteSdp.State() == S.Render(S.Send(old(remoteSdp.State()), offer, reuseMid, params))
    {
      remoteSdp.Send(offer, reuseMid, params);
      var _, _, _ := remoteSdp.GetSdp();
    }

    method Receive(id: string, kind: string, mid: Option<string>, params: RtpParams) returns (localId: string)
      requires Valid()
      modifies this, remoteSdp, remoteSdp.Sections()
      ensures Valid() && fresh(remoteSdp.Sections() - old(remoteSdp.Sections()))
      ensures State() == M.HReceive(old(State()), id, kind, mid, params)
      ensures localId == M.LocalId(old(State()), mid)
    {
      M.ReceiveSound(State(), id, kind, mid, params);
      if mid.Some? && mid.value != "" {
        localId := mid.value;
      } else {
        localId := Decimal(|mapMidTransceiver|);
      }
      NegotiateReceive(localId, kind, params, id);
      mapMidTransceiver := mapMidTransceiver[localId := localId];
    }

    /** The negotiation of a new consumer. */
    method NegotiateReceive(localId: string, kind: string, params: RtpParams, id: string)
      requires remoteSdp.Valid()
      modifies this`transportReady, remoteSdp, remoteSdp.Sections()
      ensures remoteSdp.Valid() && fresh(remoteSdp.Sections() - old(remoteSdp.Sections()))
      ensures var sdp := S.Render(S.Receive(old(remoteSdp.State()), localId, kind, params, M.StreamId(params), id));
              State() == M.Setup(old(State()).(sdp := sdp), "client")
    {
      OfferMedia(localId, kind, params, M.StreamId(params), id);
      EnsureTransport("client");
    }

    method ReceiveDataChannel()
      requires Valid()
      modifies this, remoteSdp, remoteSdp.Sections()
      ensures Valid() && fresh(remoteSdp.Sections() - old(remoteSdp.Sections()))
      ensures State() == M.HReceiveData(old(State()))
    {
      ghost var before := State();
      if !hasDataChannelMediaSection {
        OfferData();
        EnsureTransport("client");
        hasDataChannelMediaSection := true;
      }
      M.ReceiveDataSound(before);
    }

    /** `offer` is the media object the PeerConnection makes in the announced slot; its mid becomes the
        local id. */
    method Send(offer: OfferedMedia, params: RtpParams) returns (localId: string)
      requires Valid()
      modifies this, remoteSdp, remoteSdp.Sections()
      ensures Valid() && fresh(remoteSdp.Sections() - old(remoteSdp.Sections()))
      ensures State() == M.HSend(old(State()), offer, params)
      ensures localId == offer.mid
    {
      M.SendSound(State(), offer, params);
      NegotiateSend(offer, params);
      localId := offer.mid;
      mapMidTransceiver := mapMidTransceiver[localId := localId];
    }

    /** `Send` up to where it reads the MIME type of the codec, which throws when there is none. */
    method BeginSend()
      requires Valid()
      modifies this`transportReady, remoteSdp, remoteSdp.Sections()
      ensures Valid() && remoteSdp.mediaSections == old(remoteSdp.mediaSections)
      ensures State() == M.Setup(old(State()), "server")
    {
      M.SetupSound(State(), "server");
      var _ := remoteSdp.GetNextMediaSectionIdx();
      EnsureTransport("server");
    }

    /** The negotiation of a new producer: the slot is asked for first. */
    method NegotiateSend(offer: OfferedMedia, params: RtpParams)
      requires remoteSdp.Valid()
      modifies this`transportReady, remoteSdp, remoteSdp.Sections()
      ensures remoteSdp.Valid() && fresh(remoteSdp.Sections() - old(remoteSdp.Sections()))
      ensures var h := M.Setup(old(State()), "server");
              var at := S.NextIdx(old(remoteSdp.State()));
              S.Shaped(h.sdp) && (at.reuseMid != "" ==> h.sdp.sections != []) &&
              State() == h.(sdp := S.Render(S.Send(h.sdp, offer, at.reuseMid, params)))
    {
      var mediaSectionIdx := remoteSdp.GetNextMediaSectionIdx();
      EnsureTransport("server");
      AnswerMedia(offer, mediaSectionIdx.reuseMid, params);
    }

    method SendDataChannel(offer: OfferedMedia) returns (streamId: nat)
      requires Valid()
      modifies this, remoteSdp, remoteSdp.Sections()
      ensures Valid() && fresh(remoteSdp.Sections() - old(remoteSdp.Sections()))
      ensures State() == M.HSendData(old(State()), offer) && streamId == old(State()).nextStream
    {
      streamId := nextSendSctpStreamId;
      nextSendSctpStreamId := M.NextStream(streamId);
      AddDataSection(offer);
    }

    /** The guarded negotiation. */
    method AddDataSection(offer: OfferedMedia)
      requires Valid()
      modifies this`transportReady, this`hasDataChannelMediaSection, remoteSdp, remoteSdp.Sections()
      ensures Valid() && fresh(remoteSdp.Sections() - old(remoteSdp.Sections()))
      ensures State() == M.WithData(old(State()), offer)
    {
      M.WithDataSound(State(), offer);
      if !hasDataChannelMediaSection {
        NegotiateData(offer);
        hasDataChannelMediaSection := true;
      }
    }

    /** The negotiation of the first data channel: the slot is asked for and not used. */
    method NegotiateData(offer: OfferedMedia)
      requires remoteSdp.Valid()
      modifies this`transportReady, remoteSdp, remoteSdp.Sections()
      ensures remoteSdp.Valid() && fresh(remoteSdp.Sections() - old(remoteSdp.Sections()))
      ensures var h := M.Setup(old(State()), "server");
              S.Shaped(h.sdp) && State() == h.(sdp := S.Render(S.SendSctp(h.sdp, offer)))
    {
      var _ := remoteSdp.GetNextMediaSectionIdx();
      EnsureTransport("server");
      remoteSdp.SendSctpAssociation(offer);
      var _, _, _ := remoteSdp.GetSdp();
    }

    /** `StopSending` and `StopReceiving`. */
    method Stop(localId: string) returns (thrown: Option<string>)
      requires Valid()
      modifies remoteSdp, remoteSdp.Sections()
      ensures Valid() && remoteSdp.mediaSections == old(remoteSdp.mediaSections)
      ensures match M.HStop(old(State()), localId)
              case None => thrown == Some("associated RtpTransceiver not found") && State() == old(State())
              case Some(h) => thrown == None && State() == h
    {
      ghost var before := State();
      if localId !in mapMidTransceiver {
        return Some("associated RtpTransceiver not found");
      }
      var mid := mapMidTransceiver[localId];
      remoteSdp.CloseMediaSection(mid);
      var _, _, _ := remoteSdp.GetSdp();
      M.StopSound(before, localId);
      return None;
    }

    method RestartIce(ice: Ice)
      requires Valid()
      modifies remoteSdp, remoteSdp.Sections()
      ensures Valid() && remoteSdp.mediaSections == old(remoteSdp.mediaSections)
      ensures State() == M.HRestartIce(old(State()), ice)
    {
      ghost var before := State();
      remoteSdp.UpdateIceParameters(ice);
      if !transportReady {
        return;
      }
      var _, _, _ := remoteSdp.GetSdp();
      M.RestartIceSound(before, ice);
    }
  }
}
