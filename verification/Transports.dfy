/**
  The classes `SendTransport` and `RecvTransport` (src/Transport.cpp) with the producers and consumers
  they share with the application (src/Producer.cpp, src/Consumer.cpp). Each method is proved to follow
  its function in `SendModel` or `RecvModel`.
 */
module Transports {
  import opened Text
  import opened MediaSections
  import opened Endpoints
  import H = HandlerModel
  import R = RecvModel
  import S = SendModel
  import opened Handlers
  import Ortc
  import OrtcParams

  /** A `Producer` or a `Consumer`: the application holds it, and so does the transport's map. */
  class Member {
    const id: string
    const localId: string
    /** Position among all members its transport ever made. */
    ghost const serial: nat
    var closed: bool
    var transportCloseEvents: nat

    function View(): Endpoint
      reads this
    {
      Endpoint(id, localId, closed, transportCloseEvents)
    }

    constructor (id: string, localId: string, ghost serial: nat)
      ensures View() == Endpoint(id, localId, false, 0) && this.serial == serial
    {
      this.id, this.localId, this.serial := id, localId, serial;
      closed, transportCloseEvents := false, 0;
    }

    /** The part of `Close` before the callback; `first` says whether the callback follows. */
    method MarkClosed() returns (first: bool)
      modifies this
      ensures first == !old(closed) && View() == old(View()).(closed := true)
    {
      if closed {
        return false;
      }
      closed := true;
      return true;
    }

    method TransportClosed()
      modifies this
      ensures View() == Endpoints.TransportClosed(old(View()))
    {
      if closed {
        return;
      }
      closed := true;
      transportCloseEvents := transportCloseEvents + 1;
    }
  }

  ghost function Views(all: seq<Member>): (v: seq<Endpoint>)
    reads all
    ensures |v| == |all| && forall k :: 0 <= k < |all| ==> v[k] == all[k].View()
  {
    seq(|all|, k requires 0 <= k < |all| reads all => all[k].View())
  }

  lemma ViewsAppend(all: seq<Member>, m: Member)
    ensures Views(all + [m]) == Views(all) + [m.View()]
  {
  }

  /** A map of members as a map of positions. */
  ghost function Positions(members: map<string, Member>): (p: map<string, nat>)
    ensures p.Keys == members.Keys && forall id :: id in members ==> p[id] == members[id].serial
  {
    map id | id in members :: members[id].serial
  }

  lemma PositionsUpdate(members: map<string, Member>, id: string, m: Member)
    ensures Positions(members[id := m]) == Positions(members)[id := m.serial]
  {
  }

  lemma PositionsRemove(members: map<string, Member>, id: string)
    ensures Positions(members - {id}) == Positions(members) - {id}
  {
  }

  /** The closed flag and the map of a transport, with every member it ever made. */
  class Registry {
    var closed: bool
    var members: map<string, Member>
    ghost var all: seq<Member>

    ghost predicate Valid()
      reads this
    {
      && (forall k :: 0 <= k < |all| ==> all[k].serial == k)
      && (forall id :: id in members ==> members[id].id == id && Has(members[id]))
    }

    ghost predicate Has(m: Member)
      reads this
    {
      m.serial < |all| && all[m.serial] == m
    }

    ghost function State(): Book
      reads this, all
    {
      Book(closed, Positions(members), Views(all))
    }

    constructor ()
      ensures Valid() && State() == EMPTY && all == []
    {
      closed, members, all := false, map[], [];
    }

    method Add(id: string, localId: string) returns (m: Member)
      requires Valid()
      modifies this
      ensures Valid() && fresh(m) && Has(m) && m.View() == Endpoint(id, localId, false, 0)
      ensures State() == Enlist(old(State()), id, localId)
    {
      m := new Member(id, localId, |all|);
      PositionsUpdate(members, id, m);
      ViewsAppend(all, m);
      members := members[id := m];
      all := all + [m];
    }

    /** `Close` of a member up to the `OnClose` callback, and the erasure that starts it. */
    method Strike(m: Member) returns (first: bool)
      requires Valid() && Has(m)
      modifies this`members, m
      ensures Valid() && first == !old(m.closed)
      ensures State() == Endpoints.Strike(old(State()), m.serial)
    {
      ghost var before := Views(all);
      first := m.MarkClosed();
      if first {
        PositionsRemove(members, m.id);
        members := members - {m.id};
        assert Views(all) == before[m.serial := m.View()];
      } else {
        assert Views(all) == before;
      }
    }

    /** Closes the transport and tells every member in the map, in whatever order it is walked. */
    method CloseAll()
      requires Valid()
      modifies this`closed, all
      ensures Valid() && State() == Shut(old(State()))
    {
      if closed {
        return;
      }
      closed := true;
      ghost var before := Views(all);
      TellAll();
      assert Views(all) == Shut(old(State())).all by {
        forall k | 0 <= k < |all| ensures InMap(all[k]) <==> k in Positions(members).Values {
          InMapIsPosition(k);
        }
      }
    }

    lemma InMapIsPosition(k: nat)
      requires Valid() && k < |all|
      ensures InMap(all[k]) <==> k in Positions(members).Values
    {
      if InMap(all[k]) {
        assert Positions(members)[all[k].id] == k;
      }
      if id :| id in members && Positions(members)[id] == k {
        assert members[id] == all[k];
      }
    }

    /** The loop of `Close` over the map. */
    method TellAll()
      requires Valid()
      modifies all
      ensures forall k :: 0 <= k < |all| ==>
                all[k].View() == if InMap(all[k]) then Endpoints.TransportClosed(old(all[k].View()))
                                 else old(all[k].View())
    {
      var rest := members.Keys;
      while rest != {}
        invariant rest <= members.Keys
        invariant forall k :: 0 <= k < |all| ==>
                    all[k].View() == if InMap(all[k]) && all[k].id !in rest
                                     then Endpoints.TransportClosed(old(all[k].View()))
                                     else old(all[k].View())
        decreases |rest|
      {
        var id :| id in rest;
        members[id].TransportClosed();
        rest := rest - {id};
      }
    }

    ghost predicate InMap(m: Member)
      reads this
    {
      m.id in members && members[m.id] == m
    }
  }

  // ----- RecvTransport ----------------------------------------------------------------------

  class RecvTransport {
    const registry: Registry
    const recvHandler: Handler
    const extendedRtpCapabilities: Ortc.Extended
    var probatorConsumerCreated: bool

    ghost function State(): R.Recv
      reads this, registry, registry.all, recvHandler, recvHandler.remoteSdp, recvHandler.remoteSdp.Sections()
    {
      R.Recv(recvHandler.State(), probatorConsumerCreated, registry.State(), extendedRtpCapabilities)
    }

    ghost predicate Valid()
      reads this, registry, recvHandler, recvHandler.remoteSdp, recvHandler.remoteSdp.Sections()
    {
      registry.Valid() && recvHandler.Valid()
    }

    constructor (ice: Ice, role: Option<string>, extended: Ortc.Extended)
      ensures Valid() && State() == R.NewRecv(ice, role, extended)
      ensures fresh(registry) && fresh(recvHandler) && fresh(recvHandler.remoteSdp)
    {
      registry := new Registry();
      recvHandler := new Handler(ice, role);
      extendedRtpCapabilities := extended;
      probatorConsumerCreated := false;
    }

    method Consume(id: string, producerId: string, kind: string, mid: Option<string>, params: RtpParams,
                   checks: R.Checks, probatorParams: RtpParams) returns (consumer: Result<Member>)
      requires Valid()
      modifies this, registry, recvHandler, recvHandler.remoteSdp, recvHandler.remoteSdp.Sections()
      ensures fresh(recvHandler.remoteSdp.Sections() - old(recvHandler.remoteSdp.Sections()))
      ensures Valid()
      ensures var c := R.Consume(id, producerId, kind, mid, params, checks, probatorParams);
              && State() == R.Apply(old(State()), c)
              && match R.Refusal(old(State()), c)
                 case Some(e) => consumer == Err(e)
                 case None => consumer.Ok? && fresh(consumer.value) && registry.Has(consumer.value)
                              && consumer.value.View() == Endpoint(id, H.LocalId(old(State()).h, mid), false, 0)
    {
      if registry.closed { return Err("RecvTransport closed"); }
      if id == "" { return Err("missing id"); }
      if producerId == "" { return Err("missing producerId"); }
      if kind != "audio" && kind != "video" { return Err("invalid kind"); }
      if !checks.hasParams { return Err("missing rtpParameters"); }
      if !checks.appDataIsObject { return Err("appData must be a JSON object"); }
      if checks.invalid.Some? { return Err(checks.invalid.value); }
      var receivable := OrtcParams.CanReceive(params.payloadTypes, extendedRtpCapabilities);
      if !receivable { return Err("cannot consume this Producer"); }

      var c := Accept(id, producerId, kind, mid, params, checks, probatorParams);
      return Ok(c);
    }

    /** `Consume` once its checks have passed. */
    method Accept(id: string, producerId: string, kind: string, mid: Option<string>, params: RtpParams,
                  checks: R.Checks, probatorParams: RtpParams) returns (consumer: Member)
      requires Valid()
      modifies this, registry, recvHandler, recvHandler.remoteSdp, recvHandler.remoteSdp.Sections()
      ensures fresh(recvHandler.remoteSdp.Sections() - old(recvHandler.remoteSdp.Sections()))
      ensures Valid() && fresh(consumer) && registry.Has(consumer)
      ensures consumer.View() == Endpoint(id, H.LocalId(old(State()).h, mid), false, 0)
      ensures State() == R.Consumed(old(State()), R.Consume(id, producerId, kind, mid, params, checks, probatorParams))
    {
      ghost var c := R.Consume(id, producerId, kind, mid, params, checks, probatorParams);
      consumer := AcceptTrack(id, kind, mid, params, c);
      ProbeOnce(kind, probatorParams, consumer, c);
    }

    /** The probator, with the first video consumer. */
    method ProbeOnce(kind: string, params: RtpParams, ghost consumer: Member, ghost c: R.Call)
      requires Valid() && registry.Has(consumer) && c.Consume? && c.kind == kind && c.probatorParams == params
      modifies this, recvHandler, recvHandler.remoteSdp, recvHandler.remoteSdp.Sections()
      ensures fresh(recvHandler.remoteSdp.Sections() - old(recvHandler.remoteSdp.Sections()))
      ensures Valid() && registry.Has(consumer) && consumer.View() == old(consumer.View())
      ensures State() == R.Probed(old(State()), c)
    {
      if !probatorConsumerCreated && kind == "video" {
        Probe(kind, params);
      }
    }

    /** The consumer itself, before the probator. */
    method AcceptTrack(id: string, kind: string, mid: Option<string>, params: RtpParams, ghost c: R.Call)
      returns (consumer: Member)
      requires Valid() && c.Consume? && c.id == id && c.kind == kind && c.mid == mid && c.params == params
      modifies registry, recvHandler, recvHandler.remoteSdp, recvHandler.remoteSdp.Sections()
      ensures fresh(recvHandler.remoteSdp.Sections() - old(recvHandler.remoteSdp.Sections()))
      ensures Valid() && fresh(consumer) && registry.Has(consumer)
      ensures consumer.View() == Endpoint(id, H.LocalId(old(State()).h, mid), false, 0)
      ensures State() == R.Tracked(old(State()), c)
    {
      var localId := ReceiveTrack(id, kind, mid, params);
      consumer := Enroll(id, localId);
    }

    method Probe(kind: string, params: RtpParams)
      requires Valid()
      modifies this, recvHandler, recvHandler.remoteSdp, recvHandler.remoteSdp.Sections()
      ensures fresh(recvHandler.remoteSdp.Sections() - old(recvHandler.remoteSdp.Sections()))
      ensures Valid() && registry.State() == old(registry.State()) && probatorConsumerCreated
      ensures recvHandler.State() == H.HReceive(old(recvHandler.State()), R.PROBATOR, kind, Some(R.PROBATOR), params)
    {
      var _ := ReceiveTrack(R.PROBATOR, kind, Some(R.PROBATOR), params);
      probatorConsumerCreated := true;
    }

    method Enroll(id: string, localId: string) returns (consumer: Member)
      requires Valid()
      modifies registry
      ensures Valid() && fresh(consumer) && registry.Has(consumer)
      ensures consumer.View() == Endpoint(id, localId, false, 0)
      ensures registry.State() == Enlist(old(registry.State()), id, localId)
      ensures recvHandler.State() == old(recvHandler.State())
    {
      consumer := registry.Add(id, localId);
    }

    method ReceiveTrack(id: string, kind: string, mid: Option<string>, params: RtpParams) returns (localId: string)
      requires Valid()
      modifies recvHandler, recvHandler.remoteSdp, recvHandler.remoteSdp.Sections()
      ensures fresh(recvHandler.remoteSdp.Sections() - old(recvHandler.remoteSdp.Sections()))
      ensures Valid() && registry.State() == old(registry.State())
      ensures recvHandler.State() == H.HReceive(old(recvHandler.State()), id, kind, mid, params)
      ensures localId == H.LocalId(old(recvHandler.State()), mid)
    {
      localId := recvHandler.Receive(id, kind, mid, params);
    }

    /** `Consumer::Close` and, the first time, `RecvTransport::OnClose`. */
    method CloseConsumer(consumer: Member) returns (thrown: Option<string>)
      requires Valid() && registry.Has(consumer)
      modifies registry, consumer, recvHandler.remoteSdp, recvHandler.remoteSdp.Sections()
      ensures recvHandler.remoteSdp.Sections() == old(recvHandler.remoteSdp.Sections())
      ensures Valid() && State() == R.Apply(old(State()), R.CloseConsumer(consumer.serial))
      ensures thrown == R.CloseThrows(old(State()), consumer.serial)
    {
      var first := StrikeOut(consumer);
      if !first || registry.closed {
        return None;
      }
      thrown := StopReceiving(consumer.localId);
    }

    method StrikeOut(consumer: Member) returns (first: bool)
      requires Valid() && registry.Has(consumer)
      modifies registry, consumer
      ensures Valid() && first == !old(consumer.closed) && registry.closed == old(registry.closed)
      ensures recvHandler.State() == old(recvHandler.State())
      ensures registry.State() == Endpoints.Strike(old(registry.State()), consumer.serial)
    {
      first := registry.Strike(consumer);
    }

    method StopReceiving(localId: string) returns (thrown: Option<string>)
      requires Valid()
      modifies recvHandler.remoteSdp, recvHandler.remoteSdp.Sections()
      ensures recvHandler.remoteSdp.Sections() == old(recvHandler.remoteSdp.Sections())
      ensures Valid() && registry.State() == old(registry.State())
      ensures match H.HStop(old(recvHandler.State()), localId)
              case None => thrown == Some("associated RtpTransceiver not found")
                           && recvHandler.State() == old(recvHandler.State())
              case Some(h) => thrown == None && recvHandler.State() == h
    {
      thrown := recvHandler.Stop(localId);
    }

    method Close()
      requires Valid()
      modifies registry, registry.all
      ensures Valid() && State() == R.Apply(old(State()), R.CloseTransport)
    {
      registry.CloseAll();
    }

    method ConsumeData(id: string, producerId: string, sctp: bool) returns (thrown: Option<string>)
      requires Valid()
      modifies recvHandler, recvHandler.remoteSdp, recvHandler.remoteSdp.Sections()
      ensures fresh(recvHandler.remoteSdp.Sections() - old(recvHandler.remoteSdp.Sections()))
      ensures Valid() && State() == R.Apply(old(State()), R.ConsumeData(id, producerId, sctp))
      ensures thrown == R.Refusal(old(State()), R.ConsumeData(id, producerId, sctp))
    {
      if registry.closed { return Some("RecvTransport closed"); }
      if id == "" { return Some("missing id"); }
      if producerId == "" { return Some("missing producerId"); }
      if !sctp { return Some("Cannot use DataChannels with this transport. SctpParameters are not set."); }
      recvHandler.ReceiveDataChannel();
      return None;
    }

    method RestartIce(ice: Ice) returns (thrown: Option<string>)
      requires Valid()
      modifies recvHandler, recvHandler.remoteSdp, recvHandler.remoteSdp.Sections()
      ensures fresh(recvHandler.remoteSdp.Sections() - old(recvHandler.remoteSdp.Sections()))
      ensures Valid() && State() == R.Apply(old(State()), R.RestartIce(ice))
      ensures thrown == R.Refusal(old(State()), R.RestartIce(ice))
    {
      if registry.closed { return Some("Transport closed"); }
      recvHandler.RestartIce(ice);
      return None;
    }
  }

  // ----- SendTransport ----------------------------------------------------------------------

  class SendTransport {
    const registry: Registry
    const sendHandler: Handler
    /** The `StopSending` calls so far. */
    ghost var stops: seq<string>

    ghost function State(): S.Send
      reads this, registry, registry.all, sendHandler, sendHandler.remoteSdp, sendHandler.remoteSdp.Sections()
    {
      S.Send(sendHandler.State(), registry.State(), stops)
    }

    ghost predicate Valid()
      reads this, registry, sendHandler, sendHandler.remoteSdp, sendHandler.remoteSdp.Sections()
    {
      registry.Valid() && sendHandler.Valid()
    }

    constructor (ice: Ice, role: Option<string>)
      ensures Valid() && State() == S.NewSend(ice, role)
      ensures fresh(registry) && fresh(sendHandler) && fresh(sendHandler.remoteSdp)
    {
      registry := new Registry();
      sendHandler := new Handler(ice, role);
      stops := [];
    }

    /** `verdict` is how the listener's `OnProduce` ends. */
    method Produce(track: S.Track, codecs: S.Codecs, offer: OfferedMedia, params: RtpParams, verdict: S.Verdict)
      returns (producer: Result<Member>)
      requires Valid()
      modifies this, registry, sendHandler, sendHandler.remoteSdp, sendHandler.remoteSdp.Sections()
      ensures fresh(sendHandler.remoteSdp.Sections() - old(sendHandler.remoteSdp.Sections()))
      ensures Valid()
      ensures var c := S.Produce(track, codecs, offer, params, verdict);
              && State() == S.Apply(old(State()), c)
              && match S.Refusal(old(State()), c)
                 case Some(e) => producer == Err(e)
                 case None => producer.Ok? <==> verdict.Accepted? && !codecs.NullPicked?
      ensures producer.Ok? ==> fresh(producer.value) && registry.Has(producer.value)
                               && producer.value.View() == Endpoint(verdict.id, offer.mid, false, 0)
    {
      if registry.closed { return Err("SendTransport closed"); }
      if track.NoTrack? { return Err("missing track"); }
      if track.Ended? { return Err("track ended"); }
      if track.kind != "audio" && track.kind != "video" { return Err("cannot produce track kind"); }
      if codecs.Unreducible? { return Err(codecs.message); }

      if codecs.NullPicked? {
        SetUp();
        return Err("type_error");
      }
      producer := Accept(track, codecs, offer, params, verdict);
    }

    /** The part of `Send` before it reads the MIME type of the picked codec. */
    method SetUp()
      requires Valid()
      modifies sendHandler, sendHandler.remoteSdp, sendHandler.remoteSdp.Sections()
      ensures sendHandler.remoteSdp.Sections() == old(sendHandler.remoteSdp.Sections())
      ensures Valid() && State() == S.SetUp(old(State()))
    {
      sendHandler.BeginSend();
    }

    /** `Produce` once its checks have passed. */
    method Accept(
      track: S.Track, codecs: S.Codecs, offer: OfferedMedia, params: RtpParams, verdict: S.Verdict)
      returns (producer: Result<Member>)
      requires Valid()
      modifies this, registry, sendHandler, sendHandler.remoteSdp, sendHandler.remoteSdp.Sections()
      ensures fresh(sendHandler.remoteSdp.Sections() - old(sendHandler.remoteSdp.Sections()))
      ensures Valid() && State() == S.Produced(old(State()), S.Produce(track, codecs, offer, params, verdict))
      ensures producer.Ok? <==> verdict.Accepted?
      ensures producer.Ok? ==> fresh(producer.value) && registry.Has(producer.value)
                               && producer.value.View() == Endpoint(verdict.id, offer.mid, false, 0)
    {
      var localId := SendTrack(offer, params);
      match verdict
      case Rejected =>
        var _ := StopSending(localId);
        return Err("MediaSoupClientError");
      case Broken =>
        return Err("exception");
      case Accepted(id) =>
        var p := Enroll(id, localId);
        return Ok(p);
    }

    method SendTrack(offer: OfferedMedia, params: RtpParams) returns (localId: string)
      requires Valid()
      modifies sendHandler, sendHandler.remoteSdp, sendHandler.remoteSdp.Sections()
      ensures fresh(sendHandler.remoteSdp.Sections() - old(sendHandler.remoteSdp.Sections()))
      ensures Valid() && registry.State() == old(registry.State()) && localId == offer.mid
      ensures sendHandler.State() == H.HSend(old(sendHandler.State()), offer, params)
    {
      localId := sendHandler.Send(offer, params);
    }

    method StopSending(localId: string) returns (thrown: Option<string>)
      requires Valid()
      modifies this`stops, sendHandler.remoteSdp, sendHandler.remoteSdp.Sections()
      ensures sendHandler.remoteSdp.Sections() == old(sendHandler.remoteSdp.Sections())
      ensures Valid() && registry.State() == old(registry.State()) && stops == old(stops) + [localId]
      ensures match H.HStop(old(sendHandler.State()), localId)
              case None => thrown == Some("associated RtpTransceiver not found")
                           && sendHandler.State() == old(sendHandler.State())
              case Some(h) => thrown == None && sendHandler.State() == h
    {
      stops := stops + [localId];
      thrown := sendHandler.Stop(localId);
    }

    method Enroll(id: string, localId: string) returns (producer: Member)
      requires Valid()
      modifies registry
      ensures Valid() && fresh(producer) && registry.Has(producer)
      ensures producer.View() == Endpoint(id, localId, false, 0)
      ensures registry.State() == Enlist(old(registry.State()), id, localId)
      ensures sendHandler.State() == old(sendHandler.State())
    {
      producer := registry.Add(id, localId);
    }

    /** `Producer::Close` and, the first time, `SendTransport::OnClose`. */
    method CloseProducer(producer: Member) returns (thrown: Option<string>)
      requires Valid() && registry.Has(producer)
      modifies this, registry, producer, sendHandler.remoteSdp, sendHandler.remoteSdp.Sections()
      ensures sendHandler.remoteSdp.Sections() == old(sendHandler.remoteSdp.Sections())
      ensures Valid() && State() == S.Apply(old(State()), S.CloseProducer(producer.serial))
      ensures thrown == S.CloseThrows(old(State()), producer.serial)
    {
      var first := StrikeOut(producer);
      if !first || registry.closed {
        return None;
      }
      thrown := StopSending(producer.localId);
    }

    method StrikeOut(producer: Member) returns (first: bool)
      requires Valid() && registry.Has(producer)
      modifies registry, producer
      ensures Valid() && first == !old(producer.closed) && registry.closed == old(registry.closed)
      ensures sendHandler.State() == old(sendHandler.State())
      ensures registry.State() == Endpoints.Strike(old(registry.State()), producer.serial)
    {
      first := registry.Strike(producer);
    }

    method Close()
      requires Valid()
      modifies registry, registry.all
      ensures Valid() && State() == S.Apply(old(State()), S.CloseTransport)
    {
      registry.CloseAll();
    }

    method ProduceData(offer: OfferedMedia, sctp: bool, data: S.DataOptions) returns (stream: Result<nat>)
      requires Valid()
      modifies sendHandler, sendHandler.remoteSdp, sendHandler.remoteSdp.Sections()
      ensures fresh(sendHandler.remoteSdp.Sections() - old(sendHandler.remoteSdp.Sections()))
      ensures Valid() && State() == S.Apply(old(State()), S.ProduceData(offer, sctp, data))
      ensures match S.Refusal(old(State()), S.ProduceData(offer, sctp, data))
              case Some(e) => stream == Err(e)
              case None => stream == Ok(old(State()).h.nextStream)
    {
      var refusal := S.DataRefusal(sctp, data);
      if refusal.Some? { return Err(refusal.value); }
      var id := SendData(offer);
      return Ok(id);
    }

    method SendData(offer: OfferedMedia) returns (streamId: nat)
      requires Valid()
      modifies sendHandler, sendHandler.remoteSdp, sendHandler.remoteSdp.Sections()
      ensures fresh(sendHandler.remoteSdp.Sections() - old(sendHandler.remoteSdp.Sections()))
      ensures Valid() && State() == S.DataSent(old(State()), offer)
      ensures streamId == old(State()).h.nextStream
    {
      streamId := sendHandler.SendDataChannel(offer);
    }

    method RestartIce(ice: Ice) returns (thrown: Option<string>)
      requires Valid()
      modifies sendHandler, sendHandler.remoteSdp, sendHandler.remoteSdp.Sections()
      ensures fresh(sendHandler.remoteSdp.Sections() - old(sendHandler.remoteSdp.Sections()))
      ensures Valid() && State() == S.Apply(old(State()), S.RestartIce(ice))
      ensures thrown == S.Refusal(old(State()), S.RestartIce(ice))
    {
      if registry.closed { return Some("Transport closed"); }
      sendHandler.RestartIce(ice);
      return None;
    }
  }
}
