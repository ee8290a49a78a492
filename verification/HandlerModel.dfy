/**
  The handler layer on values (src/Handler.cpp): the mid-to-transceiver map and the two flags beside
  the remote SDP. The PeerConnection is the environment: a call of a handler is one step in which the
  negotiation succeeds and the transceiver found for a mid carries that mid.
 */
module HandlerModel {
  import opened Text
  import opened MediaSections
  import opened RemoteSdpModel

  /** `transceivers` maps a mid to the mid its transceiver reports. */
  datatype Handler = Handler(
    sdp: Sdp, transceivers: map<string, string>, ready: bool, hasData: bool, forcedRole: string, nextStream: nat)

  /** The number of SCTP streams. */
  const SCTP_STREAMS := 1024

  /** Without a DTLS role, or with `auto`, no local role is forced. */
  function NewHandler(ice: Ice, role: Option<string>): Handler
  {
    Handler(Init(ice, if role.Some? then role.value else ""), map[], false, false,
            if role.None? || role.value == "auto" then "" else if role.value == "server" then "client" else "server",
            0)
  }

  /** What keeps every call inside the section vector. */
  predicate Sound(h: Handler) { Shaped(h.sdp) && (h.transceivers != map[] ==> h.sdp.sections != []) }

  /** `SetupTransport`, run by the first negotiation. */
  function Setup(h: Handler, defaultRole: string): Handler
  {
    if h.ready then h
    else
      var local := if h.forcedRole != "" then h.forcedRole else defaultRole;
      h.(sdp := UpdateRole(h.sdp, if local == "client" then "server" else "client"), ready := true)
  }

  // ----- receiving --------------------------------------------------------------------------

  /** The mid of a new consumer: the given one if it is a non-empty string, else a counter. */
  function LocalId(h: Handler, mid: Option<string>): string
  {
    if mid.Some? && mid.value != "" then mid.value else Decimal(|h.transceivers|)
  }

  function StreamId(params: RtpParams): string { if params.cname.Some? then params.cname.value else "" }

  function HReceive(h: Handler, id: string, kind: string, mid: Option<string>, params: RtpParams): Handler
    requires Sound(h)
  {
    var localId := LocalId(h, mid);
    var h1 := h.(sdp := Render(Receive(h.sdp, localId, kind, params, StreamId(params), id)));
    var h2 := Setup(h1, "client");
    h2.(transceivers := h2.transceivers[localId := localId])
  }

  function HReceiveData(h: Handler): Handler
    requires Sound(h)
  {
    if h.hasData then h
    else Setup(h.(sdp := Render(RecvSctp(h.sdp))), "client").(hasData := true)
  }

  // ----- sending ----------------------------------------------------------------------------

  /** `SendHandler::Send`: the slot is asked for first, the DTLS role may be set before the answer
      section is made. `offer` is the media object the PeerConnection puts into that slot. */
  function HSend(h: Handler, offer: OfferedMedia, params: RtpParams): Handler
    requires Sound(h)
  {
    var at := NextIdx(h.sdp);
    var h1 := Setup(h, "server");
    h1.(sdp := Render(Send(h1.sdp, offer, at.reuseMid, params)),
        transceivers := h1.transceivers[offer.mid := offer.mid])
  }

  /** The section for data channels, made once. */
  function WithData(h: Handler, offer: OfferedMedia): Handler
    requires Sound(h)
  {
    if h.hasData then h
    else
      var h1 := Setup(h, "server");
      h1.(sdp := Render(SendSctp(h1.sdp, offer)), hasData := true)
  }

  function NextStream(stream: nat): nat { (stream + 1) % SCTP_STREAMS }

  function HSendData(h: Handler, offer: OfferedMedia): Handler
    requires Sound(h)
  {
    WithData(h.(nextStream := NextStream(h.nextStream)), offer)
  }

  // ----- both -------------------------------------------------------------------------------

  /** `StopSending` and `StopReceiving`; `None` when the transceiver is not found and they throw. */
  function HStop(h: Handler, localId: string): Option<Handler>
    requires Sound(h)
  {
    if localId !in h.transceivers then None
    else Some(h.(sdp := Render(Close(h.sdp, h.transceivers[localId]))))
  }

  function HRestartIce(h: Handler, ice: Ice): Handler
  {
    var sdp := UpdateIce(h.sdp, ice);
    h.(sdp := if h.ready then Render(sdp) else sdp)
  }

  // ----- every call keeps the handler sound ---------------------------------------------------

  lemma SetupSound(h: Handler, defaultRole: string)
    requires Sound(h)
    ensures Sound(Setup(h, defaultRole)) && Setup(h, defaultRole).transceivers == h.transceivers
    ensures |Setup(h, defaultRole).sdp.sections| == |h.sdp.sections|
    ensures NextIdx(Setup(h, defaultRole).sdp) == NextIdx(h.sdp)
  {
    if !h.ready {
      var local := if h.forcedRole != "" then h.forcedRole else defaultRole;
      RoleKeepsOpen(h.sdp, if local == "client" then "server" else "client");
    }
  }

  lemma FirstClosedOfPorts(a: seq<MediaObject>, b: seq<MediaObject>)
    requires |a| == |b| && forall i :: 0 <= i < |a| ==> a[i].port == b[i].port
    ensures FirstClosed(a) == FirstClosed(b)
  {
  }

  lemma ReceiveStageSound(h: Handler, id: string, kind: string, mid: Option<string>, params: RtpParams)
    requires Sound(h)
    ensures var s := Render(Receive(h.sdp, LocalId(h, mid), kind, params, StreamId(params), id));
            Sound(h.(sdp := s)) && s.sections != []
  {
    var o := OfferObject(h.sdp.ice, false, LocalId(h, mid), kind, params, StreamId(params), id);
    var k := FirstClosed(h.sdp.sections);
    if k < |h.sdp.sections| { ReplaceShaped(h.sdp, o, h.sdp.sections[k].mid); } else { AddShaped(h.sdp, o); }
  }

  lemma ReceiveSound(h: Handler, id: string, kind: string, mid: Option<string>, params: RtpParams)
    requires Sound(h)
    ensures Sound(HReceive(h, id, kind, mid, params))
  {
    ReceiveStageSound(h, id, kind, mid, params);
    SetupSound(h.(sdp := Render(Receive(h.sdp, LocalId(h, mid), kind, params, StreamId(params), id))), "client");
  }

  lemma ReceiveDataSound(h: Handler)
    requires Sound(h)
    ensures Sound(HReceiveData(h))
  {
    if !h.hasData {
      AddShaped(h.sdp, NewObject(h.sdp, RecvData));
      SetupSound(h.(sdp := Render(RecvSctp(h.sdp))), "client");
    }
  }

  lemma SendSound(h: Handler, offer: OfferedMedia, params: RtpParams)
    requires Sound(h)
    ensures Sound(HSend(h, offer, params))
  {
    SetupSound(h, "server");
    var s := Setup(h, "server").sdp;
    var o := AnswerObject(s.ice, s.role, offer, params);
    var at := NextIdx(s);
    if at.reuseMid != "" { ReplaceShaped(s, o, at.reuseMid); } else { AddShaped(s, o); }
  }

  lemma WithDataSound(h: Handler, offer: OfferedMedia)
    requires Sound(h)
    ensures Sound(WithData(h, offer))
  {
    if !h.hasData {
      SetupSound(h, "server");
      AddShaped(Setup(h, "server").sdp, NewObject(Setup(h, "server").sdp, SendData(offer)));
    }
  }

  lemma SendDataSound(h: Handler, offer: OfferedMedia)
    requires Sound(h)
    ensures Sound(HSendData(h, offer))
  {
    WithDataSound(h.(nextStream := NextStream(h.nextStream)), offer);
  }

  lemma StopSound(h: Handler, localId: string)
    requires Sound(h) && localId in h.transceivers
    ensures Sound(HStop(h, localId).value)
  {
    CloseShaped(h.sdp, h.transceivers[localId]);
  }

  lemma RestartIceSound(h: Handler, ice: Ice)
    requires Sound(h)
    ensures Sound(HRestartIce(h, ice))
  {
  }

  // ----- what a call does to the open sections ------------------------------------------------

  /** The section of `mid` is in the table and open. */
  ghost predicate Holds(s: Sdp, mid: string) {
    mid in s.midToIndex && s.midToIndex[mid] < |s.sections| && !s.sections[s.midToIndex[mid]].Closed()
  }

  /** Every open section but `except` is still open, under the same mid and at the same index. */
  ghost predicate OpenKept(s: Sdp, t: Sdp, except: string) {
    forall mid :: Holds(s, mid) && mid != except ==> Holds(t, mid) && t.midToIndex[mid] == s.midToIndex[mid]
  }

  lemma EnterHolds(s: Sdp, o: MediaObject)
    requires Coherent(s) && Shaped(s) && Credentials(o, s.ice, s.role) && !o.Closed() && Enters(s, o.mid)
    ensures var t := Enter(s, o);
            Coherent(t) && Holds(t, o.mid) && !Holds(s, o.mid) && OpenKept(s, t, "")
            && t.midToIndex.Keys <= s.midToIndex.Keys + {o.mid}
  {
    EnterKeeps(s, o);
    var t := Enter(s, o);
    forall mid | Holds(s, mid) ensures Holds(t, mid) && t.midToIndex[mid] == s.midToIndex[mid] {
      assert t.sections[s.midToIndex[mid]] == s.sections[s.midToIndex[mid]];
    }
  }

  lemma AddHolds(s: Sdp, o: MediaObject)
    requires Coherent(s) && Credentials(o, s.ice, s.role) && !o.Closed() && o.mid != "" && o.mid !in s.midToIndex
    ensures var t := Add(s, o);
            Coherent(t) && Holds(t, o.mid) && OpenKept(s, t, "")
            && t.midToIndex.Keys == s.midToIndex.Keys + {o.mid}
  {
    AddKeeps(s, o);
  }

  lemma CloseHolds(s: Sdp, mid: string)
    requires Coherent(s) && Shaped(s) && mid in s.midToIndex
    ensures s.sections != []
    ensures var t := Close(s, mid);
            && Coherent(t) && OpenKept(s, t, mid) && t.midToIndex == s.midToIndex
            && forall k :: 0 <= k < |s.sections| && s.sections[k].mid != mid ==> t.sections[k] == s.sections[k]
  {
    CloseKeeps(s, mid);
  }

  /** What stopping does to the mid's own section: it is closed, and no longer open unless it is the first. */
  lemma StopCloses(h: Handler, localId: string)
    requires Sound(h) && Coherent(h.sdp) && localId in h.transceivers && h.transceivers[localId] in h.sdp.midToIndex
    ensures var mid := h.transceivers[localId];
            var t := HStop(h, localId).value.sdp;
            ClosedBy(h.sdp, mid, t) && (Holds(t, mid) <==> mid == h.sdp.firstMid)
  {
    var mid := h.transceivers[localId];
    CloseCloses(h.sdp, mid);
    var t := Render(Close(h.sdp, mid));
    assert ClosedBy(h.sdp, mid, t);
  }

  lemma SetupHolds(h: Handler, defaultRole: string)
    requires Coherent(h.sdp)
    ensures var t := Setup(h, defaultRole).sdp;
            Coherent(t) && OpenKept(h.sdp, t, "") && t.midToIndex == h.sdp.midToIndex
            && (forall mid :: Enters(h.sdp, mid) ==> Enters(t, mid))
  {
    if !h.ready {
      var local := if h.forcedRole != "" then h.forcedRole else defaultRole;
      RoleHolds(h.sdp, if local == "client" then "server" else "client");
    }
  }

  lemma RoleHolds(s: Sdp, role: string)
    requires Coherent(s) && SetupFor(role).Some?
    ensures var t := UpdateRole(s, role);
            Coherent(t) && OpenKept(s, t, "") && t.midToIndex == s.midToIndex
            && (forall mid :: Enters(s, mid) ==> Enters(t, mid))
  {
    assert Coherent(UpdateRole(s, role)) by { RoleKeeps(s, role); }
    RoleKeepsOpen(s, role);
  }

  /** Setting the role changes neither a mid nor a port. */
  lemma RoleKeepsOpen(s: Sdp, role: string)
    ensures NextIdx(UpdateRole(s, role)) == NextIdx(s) && OpenKept(s, UpdateRole(s, role), "")
  {
    FirstClosedOfPorts(s.sections, UpdateRole(s, role).sections);
  }

  /** A received media section with an admissible mid is added, open, and disturbs no open section. */
  lemma ReceiveHolds(h: Handler, id: string, kind: string, mid: Option<string>, params: RtpParams)
    requires Sound(h) && Coherent(h.sdp) && Enters(h.sdp, LocalId(h, mid))
    ensures var localId := LocalId(h, mid);
            var t := HReceive(h, id, kind, mid, params);
            && Coherent(t.sdp) && Holds(t.sdp, localId) && !Holds(h.sdp, localId) && OpenKept(h.sdp, t.sdp, "")
            && t.sdp.midToIndex.Keys <= h.sdp.midToIndex.Keys + {localId}
            && t.transceivers == h.transceivers[localId := localId] && t.hasData == h.hasData
  {
    var localId := LocalId(h, mid);
    var o := OfferObject(h.sdp.ice, false, localId, kind, params, StreamId(params), id);
    EnterHolds(h.sdp, o);
    var s1 := Enter(h.sdp, o);
    assert Receive(h.sdp, localId, kind, params, StreamId(params), id) == s1;
    RenderHolds(s1);
    SetupHolds(h.(sdp := Render(s1)), "client");
  }

  /** The section of a new consumer, at the place of its mid, offers the track under the consumer's id and the
      cname as its stream id. */
  lemma ReceivedSectionOffers(h: Handler, id: string, kind: string, mid: Option<string>, params: RtpParams)
    requires Sound(h) && Coherent(h.sdp) && Enters(h.sdp, LocalId(h, mid))
    ensures var localId := LocalId(h, mid);
            var t := HReceive(h, id, kind, mid, params).sdp;
            && localId in t.midToIndex && t.midToIndex[localId] < |t.sections|
            && Offers(t.sections[t.midToIndex[localId]], localId, kind, params,
                      if params.cname.Some? then params.cname.value else "", id)
  {
    var localId := LocalId(h, mid);
    var o := OfferObject(h.sdp.ice, false, localId, kind, params, StreamId(params), id);
    var s := Enter(h.sdp, o);
    assert Receive(h.sdp, localId, kind, params, StreamId(params), id) == s;
    EnteredIsThere(h.sdp, o);
    OfferOffers(h.sdp.ice, localId, kind, params, StreamId(params), id);
    SetupLeaves(h.(sdp := Render(s)), "client", s.midToIndex[localId]);
  }

  /** Receiving another track leaves an open offer section as it is. */
  lemma ReceiveLeaves(
    h: Handler, id: string, kind: string, mid: Option<string>, params: RtpParams, other: string)
    requires Sound(h) && Coherent(h.sdp) && Enters(h.sdp, LocalId(h, mid)) && Holds(h.sdp, other)
    requires !h.sdp.sections[h.sdp.midToIndex[other]].answer
    ensures var t := HReceive(h, id, kind, mid, params).sdp;
            && other in t.midToIndex && t.midToIndex[other] == h.sdp.midToIndex[other] < |t.sections|
            && t.sections[t.midToIndex[other]] == h.sdp.sections[h.sdp.midToIndex[other]]
  {
    var k := h.sdp.midToIndex[other];
    var o := OfferObject(h.sdp.ice, false, LocalId(h, mid), kind, params, StreamId(params), id);
    var s := Enter(h.sdp, o);
    assert Receive(h.sdp, LocalId(h, mid), kind, params, StreamId(params), id) == s;
    EnterLeaves(h.sdp, o, other);
    assert Credentials(h.sdp.sections[k], h.sdp.ice, h.sdp.role);
    SetupLeaves(h.(sdp := Render(s)), "client", k);
  }

  lemma EnterLeaves(s: Sdp, o: MediaObject, other: string)
    requires Coherent(s) && Shaped(s) && Credentials(o, s.ice, s.role) && !o.Closed() && Enters(s, o.mid)
    requires Holds(s, other)
    ensures var t := Enter(s, o);
            && other in t.midToIndex && t.midToIndex[other] == s.midToIndex[other] < |t.sections|
            && t.sections[s.midToIndex[other]] == s.sections[s.midToIndex[other]]
  {
    EnterHolds(s, o);
    HeldMidNonEmpty(s, other);
    EnterSections(s, o);
  }

  lemma HeldMidNonEmpty(s: Sdp, mid: string)
    requires Coherent(s) && Holds(s, mid)
    ensures mid != ""
  {
  }

  lemma EnteredIsThere(s: Sdp, o: MediaObject)
    requires Coherent(s) && Shaped(s) && !o.Closed() && Enters(s, o.mid)
    ensures var t := Enter(s, o);
            o.mid in t.midToIndex && t.midToIndex[o.mid] < |t.sections| && t.sections[t.midToIndex[o.mid]] == o
  {
    EnterSections(s, o);
  }

  /** Setting the transport up changes nothing of an offer section and only the setup of an answer section. */
  lemma SetupLeaves(h: Handler, defaultRole: string, k: nat)
    requires k < |h.sdp.sections| && (!h.sdp.sections[k].answer ==> h.sdp.sections[k].setup == Some("actpass"))
    ensures var t := Setup(h, defaultRole).sdp;
            && t.midToIndex == h.sdp.midToIndex && |t.sections| == |h.sdp.sections|
            && t.sections[k].(setup := None) == h.sdp.sections[k].(setup := None)
            && (!h.sdp.sections[k].answer ==> t.sections[k] == h.sdp.sections[k])
  {
  }

  /** The section of a new producer, at the announced place, answers the offered one. */
  lemma SentSectionAnswers(h: Handler, offer: OfferedMedia, params: RtpParams)
    requires Sound(h) && Coherent(h.sdp) && Enters(h.sdp, offer.mid)
    ensures var t := HSend(h, offer, params).sdp;
            && NextIdx(h.sdp).idx < |t.sections| && Answers(t.sections[NextIdx(h.sdp).idx], offer, params)
  {
    SetupSound(h, "server");
    SetupHolds(h, "server");
    var s := Setup(h, "server").sdp;
    AnswerAnswers(s.ice, s.role, offer, params);
    SendLandsWhereAnnounced(s, None, offer, params);
  }

  lemma RenderHolds(s: Sdp)
    requires Coherent(s)
    ensures Coherent(Render(s)) && OpenKept(s, Render(s), "") && Render(s).midToIndex == s.midToIndex
    ensures forall mid :: Holds(Render(s), mid) <==> Holds(s, mid)
  {
  }

  lemma ReceiveDataHolds(h: Handler)
    requires Sound(h) && Coherent(h.sdp) && (!h.hasData ==> "datachannel" !in h.sdp.midToIndex)
    ensures var t := HReceiveData(h);
            && Coherent(t.sdp) && OpenKept(h.sdp, t.sdp, "") && t.hasData
            && t.sdp.midToIndex.Keys == h.sdp.midToIndex.Keys + (if h.hasData then {} else {"datachannel"})
            && t.transceivers == h.transceivers
  {
    if !h.hasData {
      AddHolds(h.sdp, NewObject(h.sdp, RecvData));
      RenderHolds(RecvSctp(h.sdp));
      SetupHolds(h.(sdp := Render(RecvSctp(h.sdp))), "client");
    }
  }

  /** A sent media section with an admissible mid likewise, at the index announced before the offer. */
  lemma SendHolds(h: Handler, offer: OfferedMedia, params: RtpParams)
    requires Sound(h) && Coherent(h.sdp) && Enters(h.sdp, offer.mid)
    ensures var t := HSend(h, offer, params);
            && Coherent(t.sdp) && Holds(t.sdp, offer.mid) && !Holds(h.sdp, offer.mid) && OpenKept(h.sdp, t.sdp, "")
            && t.sdp.midToIndex[offer.mid] == NextIdx(h.sdp).idx
            && t.sdp.midToIndex.Keys <= h.sdp.midToIndex.Keys + {offer.mid}
            && t.transceivers == h.transceivers[offer.mid := offer.mid] && t.hasData == h.hasData
  {
    SetupSound(h, "server");
    SetupHolds(h, "server");
    var s := Setup(h, "server").sdp;
    var o := AnswerObject(s.ice, s.role, offer, params);
    EnterHolds(s, o);
    assert Send(s, offer, NextIdx(h.sdp).reuseMid, params) == Enter(s, o) by {
      NewMediaEnters(s, SendMedia(offer, params));
    }
    RenderHolds(Enter(s, o));
  }

  lemma DataSectionHolds(s: Sdp, offer: OfferedMedia)
    requires Coherent(s) && offer.mid != "" && offer.mid !in s.midToIndex
    ensures var t := Render(SendSctp(s, offer));
            Coherent(t) && OpenKept(s, t, "") && t.midToIndex.Keys == s.midToIndex.Keys + {offer.mid}
  {
    AddHolds(s, NewObject(s, SendData(offer)));
    RenderHolds(SendSctp(s, offer));
  }

  lemma SendDataHolds(h: Handler, offer: OfferedMedia)
    requires Sound(h) && Coherent(h.sdp) && (!h.hasData ==> offer.mid != "" && offer.mid !in h.sdp.midToIndex)
    ensures var t := HSendData(h, offer);
            && Coherent(t.sdp) && OpenKept(h.sdp, t.sdp, "") && t.hasData && t.transceivers == h.transceivers
            && t.sdp.midToIndex.Keys == h.sdp.midToIndex.Keys + (if h.hasData then {} else {offer.mid})
  {
    if !h.hasData {
      var h1 := Setup(h.(nextStream := NextStream(h.nextStream)), "server");
      assert HSendData(h, offer) == h1.(sdp := Render(SendSctp(h1.sdp, offer)), hasData := true);
      SetupHolds(h.(nextStream := NextStream(h.nextStream)), "server");
      DataSectionHolds(h1.sdp, offer);
    }
  }

  // ----- the DTLS role a handler ends up with ---------------------------------------------------

  /** A handler made with `role`, which takes `chosen` as the remote role when none was forced, has that role
      once it is ready; its sections are all answers or all offers. */
  ghost predicate Cast(h: Handler, role: Option<string>, chosen: string, answers: bool) {
    && h.forcedRole == (if role == None || role == Some("auto") then ""
                        else if role == Some("server") then "client" else "server")
    && (h.ready ==> h.sdp.role == if role == None || role == Some("auto") then chosen
                                  else if role == Some("server") then "server" else "client")
    && forall k :: 0 <= k < |h.sdp.sections| ==> h.sdp.sections[k].answer == answers
  }

  /** And between calls it has sections only when it is ready. */
  ghost predicate Plays(h: Handler, role: Option<string>, chosen: string, answers: bool) {
    Cast(h, role, chosen, answers) && (h.sdp.sections != [] ==> h.ready)
  }

  lemma SetupPlays(h: Handler, role: Option<string>, defaultRole: string, chosen: string, answers: bool)
    requires Cast(h, role, chosen, answers)
    requires (defaultRole == "client" && chosen == "server") || (defaultRole == "server" && chosen == "client")
    ensures Plays(Setup(h, defaultRole), role, chosen, answers) && Setup(h, defaultRole).ready
  {
  }

  lemma SendPlays(h: Handler, role: Option<string>, offer: OfferedMedia, params: RtpParams)
    requires Sound(h) && Plays(h, role, "client", true)
    ensures Plays(HSend(h, offer, params), role, "client", true)
  {
    SetupSound(h, "server");
    SetupPlays(h, role, "server", "client", true);
  }

  lemma SendDataPlays(h: Handler, role: Option<string>, offer: OfferedMedia)
    requires Sound(h) && Plays(h, role, "client", true)
    ensures Plays(HSendData(h, offer), role, "client", true)
  {
    SetupPlays(h.(nextStream := NextStream(h.nextStream)), role, "server", "client", true);
  }

  lemma ReceivePlays(
    h: Handler, role: Option<string>, id: string, kind: string, mid: Option<string>, params: RtpParams)
    requires Sound(h) && Plays(h, role, "server", false)
    ensures Plays(HReceive(h, id, kind, mid, params), role, "server", false)
  {
    var s := Receive(h.sdp, LocalId(h, mid), kind, params, StreamId(params), id);
    ReceivedAreOffers(h.sdp, LocalId(h, mid), kind, params, StreamId(params), id);
    SetupPlays(h.(sdp := Render(s)), role, "client", "server", false);
  }

  lemma ReceivedAreOffers(s: Sdp, mid: string, kind: string, params: RtpParams, streamId: string, trackId: string)
    requires Shaped(s) && forall k :: 0 <= k < |s.sections| ==> !s.sections[k].answer
    ensures var t := Receive(s, mid, kind, params, streamId, trackId);
            t.role == s.role && forall k :: 0 <= k < |t.sections| ==> !t.sections[k].answer
  {
  }

  lemma ReceiveDataPlays(h: Handler, role: Option<string>)
    requires Sound(h) && Plays(h, role, "server", false)
    ensures Plays(HReceiveData(h), role, "server", false)
  {
    if !h.hasData {
      SetupPlays(h.(sdp := Render(RecvSctp(h.sdp))), role, "client", "server", false);
    }
  }

  lemma StopPlays(h: Handler, role: Option<string>, chosen: string, answers: bool, localId: string)
    requires Sound(h) && Plays(h, role, chosen, answers) && HStop(h, localId).Some?
    ensures Plays(HStop(h, localId).value, role, chosen, answers)
  {
  }

  lemma RestartIcePlays(h: Handler, role: Option<string>, chosen: string, answers: bool, ice: Ice)
    requires Plays(h, role, chosen, answers)
    ensures Plays(HRestartIce(h, ice), role, chosen, answers)
  {
  }

  /** Stopping a mid that is in the table disturbs no other section. */
  lemma StopHolds(h: Handler, localId: string)
    requires Sound(h) && Coherent(h.sdp) && localId in h.transceivers && h.transceivers[localId] in h.sdp.midToIndex
    ensures var t := HStop(h, localId);
            var mid := h.transceivers[localId];
            && t.Some? && Coherent(t.value.sdp) && OpenKept(h.sdp, t.value.sdp, mid)
            && t.value.sdp.midToIndex == h.sdp.midToIndex && t.value.transceivers == h.transceivers
            && t.value.hasData == h.hasData && |t.value.sdp.sections| == |h.sdp.sections|
            && forall k :: 0 <= k < |h.sdp.sections| && h.sdp.sections[k].mid != mid ==>
                 t.value.sdp.sections[k] == h.sdp.sections[k]
  {
    CloseHolds(h.sdp, h.transceivers[localId]);
    RenderHolds(Close(h.sdp, h.transceivers[localId]));
  }

  lemma RestartIceHolds(h: Handler, ice: Ice)
    requires Coherent(h.sdp)
    ensures var t := HRestartIce(h, ice);
            Coherent(t.sdp) && OpenKept(h.sdp, t.sdp, "") && t.sdp.midToIndex == h.sdp.midToIndex
            && t.transceivers == h.transceivers && t.hasData == h.hasData
            && t.sdp.ice == ice
            && t.sdp.version == (if h.ready then (h.sdp.version + 1) % 0x1_0000_0000 else h.sdp.version)
  {
    RewriteKeeps(h.sdp, UpdateIce(h.sdp, ice));
    RenderHolds(UpdateIce(h.sdp, ice));
  }
}
