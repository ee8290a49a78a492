/**
  The receiving side on values: `RecvTransport` and its `Consumer`s (src/Transport.cpp,
  src/Consumer.cpp) over the handler layer.
 */
module RecvModel {
  import opened Text
  import opened MediaSections
  import opened RemoteSdpModel
  import opened HandlerModel
  import opened Endpoints
  import Ortc
  import OrtcParams

  /** `extended` are the capabilities the transport was made with. */
  datatype Recv = Recv(h: Handler, probator: bool, book: Book, extended: Ortc.Extended)

  /** What `Consume` finds out about its arguments: whether RTP parameters were given and the application
      data is an object, and the message if the parameters do not validate. */
  datatype Checks = Checks(hasParams: bool, appDataIsObject: bool, invalid: Option<string>)

  /** The probator uses its own parameters. */
  datatype Call =
    | Consume(id: string, producerId: string, kind: string, mid: Option<string>, params: RtpParams,
              checks: Checks, probatorParams: RtpParams)
    | CloseConsumer(k: nat)
    | CloseTransport
    | ConsumeData(id: string, producerId: string, sctp: bool)
    | RestartIce(ice: Ice)

  function NewRecv(ice: Ice, role: Option<string>, extended: Ortc.Extended): Recv
  {
    Recv(NewHandler(ice, role), false, EMPTY, extended)
  }

  // ----- the calls --------------------------------------------------------------------------

  /** The exception thrown before anything is done. */
  function Refusal(r: Recv, c: Call): Option<string>
  {
    match c
    case Consume(id, producerId, kind, _, params, checks, _) =>
      if r.book.closed then Some("RecvTransport closed")
      else if id == "" then Some("missing id")
      else if producerId == "" then Some("missing producerId")
      else if kind != "audio" && kind != "video" then Some("invalid kind")
      else if !checks.hasParams then Some("missing rtpParameters")
      else if !checks.appDataIsObject then Some("appData must be a JSON object")
      else if checks.invalid.Some? then checks.invalid
      else if !OrtcParams.CanReceive(params.payloadTypes, r.extended) then Some("cannot consume this Producer")
      else None
    case ConsumeData(id, producerId, sctp) =>
      if r.book.closed then Some("RecvTransport closed")
      else if id == "" then Some("missing id")
      else if producerId == "" then Some("missing producerId")
      else if !sctp then Some("Cannot use DataChannels with this transport. SctpParameters are not set.")
      else None
    case RestartIce(_) => if r.book.closed then Some("Transport closed") else None
    case _ => None
  }

  const PROBATOR := "probator"

  /** The handler after `Consume` has received the track itself. */
  function Received(r: Recv, c: Call): (h: Handler)
    requires c.Consume? && Sound(r.h)
    ensures Sound(h)
  {
    ReceiveSound(r.h, c.id, c.kind, c.mid, c.params);
    HReceive(r.h, c.id, c.kind, c.mid, c.params)
  }

  predicate StartsProbator(r: Recv, c: Call)
    requires c.Consume?
  {
    !r.probator && c.kind == "video"
  }

  function Consumed(r: Recv, c: Call): Recv
    requires c.Consume? && Sound(r.h)
  {
    Probed(Tracked(r, c), c)
  }

  /** The consumer itself. */
  function Tracked(r: Recv, c: Call): (r': Recv)
    requires c.Consume? && Sound(r.h)
    ensures Sound(r'.h)
  {
    r.(h := Received(r, c), book := Enlist(r.book, c.id, LocalId(r.h, c.mid)))
  }

  /** The probator, with the first video consumer. */
  function Probed(r: Recv, c: Call): Recv
    requires c.Consume? && Sound(r.h)
  {
    if StartsProbator(r, c)
    then r.(h := HReceive(r.h, PROBATOR, c.kind, Some(PROBATOR), c.probatorParams), probator := true) else r
  }

  /** `Consumer::Close`, then `RecvTransport::OnClose`. A consumer already closed does nothing; an
      exception of `StopReceiving` leaves the handler as it is. */
  function ConsumerClosed(r: Recv, k: nat): Recv
    requires k < |r.book.all| && Sound(r.h)
  {
    var c := r.book.all[k];
    r.(book := Strike(r.book, k),
       h := if c.closed || r.book.closed then r.h
            else match HStop(r.h, c.localId)
              case None => r.h
              case Some(h) => h)
  }

  /** The exception that a consumer's close passes on. */
  function CloseThrows(r: Recv, k: nat): Option<string>
    requires k < |r.book.all| && Sound(r.h)
  {
    if r.book.all[k].closed || r.book.closed || HStop(r.h, r.book.all[k].localId).Some? then None
    else Some("associated RtpTransceiver not found")
  }

  predicate Callable(r: Recv, c: Call) { Sound(r.h) && (c.CloseConsumer? ==> c.k < |r.book.all|) }

  function Apply(r: Recv, c: Call): Recv
    requires Callable(r, c)
  {
    if Refusal(r, c).Some? then r
    else match c
      case Consume(_, _, _, _, _, _, _) => Consumed(r, c)
      case CloseConsumer(k) => ConsumerClosed(r, k)
      case CloseTransport => r.(book := Shut(r.book))
      case ConsumeData(_, _, _) => r.(h := HReceiveData(r.h))
      case RestartIce(ice) => r.(h := HRestartIce(r.h, ice))
  }

  // ----- the invariant ----------------------------------------------------------------------

  ghost predicate Inv(r: Recv) { Sound(r.h) && Coherent(r.h.sdp) && Owned(r.h, r.book.all) && Exact(r.book) }

  /** What the caller guarantees: ids of live consumers differ, and the mids given or generated may
      enter the table. */
  ghost predicate Allowed(r: Recv, c: Call)
    requires Callable(r, c)
  {
    Refusal(r, c).None? ==>
      match c
      case Consume(_, _, _, _, _, _, _) =>
        && c.id !in r.book.index
        && Enters(r.h.sdp, LocalId(r.h, c.mid))
        && (StartsProbator(r, c) ==> Enters(Received(r, c).sdp, PROBATOR))
      case ConsumeData(_, _, _) => !r.h.hasData ==> "datachannel" !in r.h.sdp.midToIndex
      case _ => true
  }

  /** The handler of an allowed `Consume` after its first stage. */
  lemma ReceivedHolds(r: Recv, c: Call)
    requires Inv(r) && c.Consume? && Callable(r, c) && Refusal(r, c).None? && Allowed(r, c)
    ensures var h := Received(r, c);
            Coherent(h.sdp) && Owned(h, r.book.all) && Backed(h, LocalId(r.h, c.mid))
            && !Holds(r.h.sdp, LocalId(r.h, c.mid))
  {
    ReceiveHolds(r.h, c.id, c.kind, c.mid, c.params);
    OwnedAfter(r.h, Received(r, c), r.book.all);
  }

  lemma ProbatorKeeps(h: Handler, all: seq<Endpoint>, kind: string, params: RtpParams)
    requires Sound(h) && Coherent(h.sdp) && Owned(h, all) && Enters(h.sdp, PROBATOR)
    ensures var h' := HReceive(h, PROBATOR, kind, Some(PROBATOR), params);
            Sound(h') && Coherent(h'.sdp) && Owned(h', all)
  {
    assert LocalId(h, Some(PROBATOR)) == PROBATOR;
    var h' := HReceive(h, PROBATOR, kind, Some(PROBATOR), params);
    ReceiveSound(h, PROBATOR, kind, Some(PROBATOR), params);
    ReceiveHolds(h, PROBATOR, kind, Some(PROBATOR), params);
    OwnedAfter(h, h', all);
  }

  lemma ConsumeKeeps(r: Recv, c: Call)
    requires Inv(r) && c.Consume? && Callable(r, c) && Refusal(r, c).None? && Allowed(r, c)
    ensures Inv(Consumed(r, c))
  {
    var localId := LocalId(r.h, c.mid);
    var h := Received(r, c);
    ReceivedHolds(r, c);
    OwnedEnlist(r.h, h, r.book, c.id, localId);
    EnlistKeeps(r.book, c.id, localId);
    if StartsProbator(r, c) {
      ProbatorKeeps(h, Enlist(r.book, c.id, localId).all, c.kind, c.probatorParams);
    }
  }

  lemma CloseConsumerKeeps(r: Recv, k: nat)
    requires Inv(r) && k < |r.book.all|
    ensures Inv(ConsumerClosed(r, k))
  {
    StrikeKeeps(r.book, k);
    if !r.book.all[k].closed && !r.book.closed {
      var mid := r.book.all[k].localId;
      assert Backed(r.h, mid);
      StopHolds(r.h, mid);
      StopSound(r.h, mid);
      OwnedStrike(r.h, HStop(r.h, mid).value, r.book, k);
    }
  }

  lemma DataKeeps(h: Handler, all: seq<Endpoint>)
    requires Sound(h) && Coherent(h.sdp) && Owned(h, all) && (!h.hasData ==> "datachannel" !in h.sdp.midToIndex)
    ensures Sound(HReceiveData(h)) && Coherent(HReceiveData(h).sdp) && Owned(HReceiveData(h), all)
  {
    ReceiveDataHolds(h);
    ReceiveDataSound(h);
    OwnedAfter(h, HReceiveData(h), all);
  }

  /** Every allowed call keeps the invariant. */
  lemma ApplyKeeps(r: Recv, c: Call)
    requires Inv(r) && Callable(r, c) && Allowed(r, c)
    ensures Inv(Apply(r, c))
  {
    if Refusal(r, c).None? {
      match c
      case Consume(_, _, _, _, _, _, _) => ConsumeKeeps(r, c);
      case CloseConsumer(k) => CloseConsumerKeeps(r, k);
      case CloseTransport => ShutKeeps(r.book); OwnedShut(r.h, r.book);
      case ConsumeData(_, _, _) => DataKeeps(r.h, r.book.all);
      case RestartIce(ice) => IceKeeps(r.h, r.book.all, ice);
    }
  }

  // ----- runs -------------------------------------------------------------------------------

  /** The states before and after each call, from a new transport on. */
  ghost predicate Calls(t: seq<Recv>, calls: seq<Call>) {
    && |t| == |calls| + 1
    && (exists ice: Ice, role: Option<string>, extended: Ortc.Extended :: t[0] == NewRecv(ice, role, extended))
    && forall i :: 0 <= i < |calls| ==> Callable(t[i], calls[i]) && t[i + 1] == Apply(t[i], calls[i])
  }

  /** A run in which the caller keeps ids and mids apart. */
  ghost predicate Run(t: seq<Recv>, calls: seq<Call>) {
    Calls(t, calls) && forall i :: 0 <= i < |calls| ==> Allowed(t[i], calls[i])
  }

  lemma {:induction false} RunInv(t: seq<Recv>, calls: seq<Call>, i: nat)
    requires Run(t, calls) && i < |t|
    ensures Inv(t[i])
  {
    if i == 0 {
    } else {
      RunInv(t, calls, i - 1);
      ApplyKeeps(t[i - 1], calls[i - 1]);
    }
  }

  /** In every run each `CloseMediaSection` call names a mid that is in the table with an open section,
      closes that section, or only silences it if it is the first, and leaves every section owned by another
      live consumer exactly as it was. */
  lemma EveryCloseIsSafe(t: seq<Recv>, calls: seq<Call>, i: nat)
    requires Run(t, calls) && i < |calls| && calls[i].CloseConsumer?
    requires !t[i].book.closed && !t[i].book.all[calls[i].k].closed
    ensures ClosesSafely(t[i], calls[i].k, t[i + 1])
  {
    RunInv(t, calls, i);
    assert t[i + 1] == ConsumerClosed(t[i], calls[i].k);
    CloseIsSafe(t[i], calls[i].k);
  }

  /** Closing consumer `k` closed its section, which was open, and left those of the other live ones alone. */
  ghost predicate ClosesSafely(r: Recv, k: nat, r': Recv)
    requires k < |r.book.all| && Sound(r.h)
  {
    var s, s', all := r.h.sdp, r'.h.sdp, r.book.all;
    var mid := all[k].localId;
    && HStop(r.h, mid) == Some(r'.h) && Holds(s, mid) && CloseThrows(r, k) == None
    && ClosedBy(s, mid, s') && (Holds(s', mid) <==> mid == s.firstMid)
    && forall j :: 0 <= j < |all| && j != k && !all[j].closed ==> SectionKept(s, all[j].localId, mid, s')
  }

  /** The section of `other` is open before and after, at the same index and unchanged. */
  ghost predicate SectionKept(s: Sdp, other: string, mid: string, s': Sdp) {
    && mid in s.midToIndex && Holds(s, other) && Holds(s', other)
    && s'.midToIndex[other] == s.midToIndex[other] != s.midToIndex[mid]
    && s'.sections[s.midToIndex[other]] == s.sections[s.midToIndex[other]]
  }

  lemma CloseIsSafe(r: Recv, k: nat)
    requires Inv(r) && k < |r.book.all| && !r.book.closed && !r.book.all[k].closed
    ensures ClosesSafely(r, k, ConsumerClosed(r, k))
  {
    StopIsSafe(r.h, r.book, k);
    forall j | 0 <= j < |r.book.all| && j != k && !r.book.all[j].closed
      ensures r.book.all[j].localId != r.book.all[k].localId && Backed(r.h, r.book.all[j].localId) {
    }
  }

  // ----- what a consumer gets -------------------------------------------------------------------

  /** `Consume` goes through exactly when the transport is open, the ids are not empty, the kind is audio or
      video, the parameters are there and valid, the application data is an object, and the first payload type
      is one that can be received. */
  lemma ConsumesIff(r: Recv, c: Call)
    requires c.Consume?
    ensures Refusal(r, c).None? <==>
            && !r.book.closed && c.id != "" && c.producerId != "" && (c.kind == "audio" || c.kind == "video")
            && c.checks.hasParams && c.checks.appDataIsObject && c.checks.invalid.None?
            && c.params.payloadTypes != []
            && exists k :: 0 <= k < |r.extended.codecs|
                           && r.extended.codecs[k].remotePt == Some(c.params.payloadTypes[0])
  {
  }

  /** A data consumer needs an open transport, both ids and SCTP; an ICE restart needs an open transport; closing
      is never refused. */
  lemma OthersGoThroughIff(r: Recv, c: Call)
    requires !c.Consume?
    ensures Refusal(r, c).None? <==>
            match c
            case ConsumeData(id, producerId, sctp) => !r.book.closed && id != "" && producerId != "" && sctp
            case RestartIce(_) => !r.book.closed
            case _ => true
  {
  }

  /** The close of a consumer throws exactly when it is the first, on an open transport, and the mid map does
      not have its local id. */
  lemma CloseThrowsIff(r: Recv, k: nat)
    requires k < |r.book.all| && Sound(r.h)
    ensures CloseThrows(r, k).Some? <==>
            !r.book.closed && !r.book.all[k].closed && r.book.all[k].localId !in r.h.transceivers
  {
  }

  function StreamOf(params: RtpParams): string { if params.cname.Some? then params.cname.value else "" }

  /** The table has an open section under the mid that offers the track. */
  ghost predicate TrackOffered(s: Sdp, mid: string, kind: string, params: RtpParams, id: string) {
    && mid in s.midToIndex && s.midToIndex[mid] < |s.sections|
    && Offers(s.sections[s.midToIndex[mid]], mid, kind, params, StreamOf(params), id)
  }

  lemma ReceivedIsOffered(r: Recv, c: Call)
    requires Inv(r) && Callable(r, c) && Allowed(r, c) && c.Consume? && Refusal(r, c).None?
    ensures TrackOffered(Received(r, c).sdp, LocalId(r.h, c.mid), c.kind, c.params, c.id)
  {
    assert Received(r, c) == HReceive(r.h, c.id, c.kind, c.mid, c.params);
    ReceivedSectionOffers(r.h, c.id, c.kind, c.mid, c.params);
  }

  lemma ProbedIsOffered(r: Recv, c: Call)
    requires Inv(r) && Callable(r, c) && Allowed(r, c) && c.Consume? && Refusal(r, c).None? && StartsProbator(r, c)
    ensures var h := HReceive(Received(r, c), PROBATOR, c.kind, Some(PROBATOR), c.probatorParams);
            && TrackOffered(h.sdp, LocalId(r.h, c.mid), c.kind, c.params, c.id)
            && TrackOffered(h.sdp, "probator", "video", c.probatorParams, "probator")
  {
    ReceivedHolds(r, c);
    ReceivedIsOffered(r, c);
    ReceiveLeaves(Received(r, c), PROBATOR, c.kind, Some(PROBATOR), c.probatorParams, LocalId(r.h, c.mid));
    ReceivedSectionOffers(Received(r, c), PROBATOR, c.kind, Some(PROBATOR), c.probatorParams);
  }

  /** In every run a `Consume` that goes through leaves a section that offers the consumer's track under its id;
      the first video consumer is also given a probator section; and the consumer is listed, open. */
  lemma EveryConsumerIsOffered(t: seq<Recv>, calls: seq<Call>, i: nat)
    requires Run(t, calls) && i < |calls| && calls[i].Consume? && Refusal(t[i], calls[i]).None?
    ensures var c, s := calls[i], t[i + 1].h.sdp;
            && TrackOffered(s, LocalId(t[i].h, c.mid), c.kind, c.params, c.id)
            && (c.kind == "video" && !t[i].probator ==>
                  TrackOffered(s, "probator", "video", c.probatorParams, "probator"))
            && t[i + 1].probator == (t[i].probator || c.kind == "video")
            && c.id in t[i + 1].book.index
  {
    RunInv(t, calls, i);
    var r, c := t[i], calls[i];
    assert t[i + 1] == Consumed(r, c);
    ReceivedIsOffered(r, c);
    if StartsProbator(r, c) {
      ProbedIsOffered(r, c);
    }
  }

  // ----- the role -----------------------------------------------------------------------------

  lemma ConsumePlays(r: Recv, c: Call, role: Option<string>)
    requires Sound(r.h) && c.Consume? && Plays(r.h, role, "server", false)
    ensures Plays(Consumed(r, c).h, role, "server", false)
  {
    ReceivePlays(r.h, role, c.id, c.kind, c.mid, c.params);
    if StartsProbator(Tracked(r, c), c) {
      ReceivePlays(Received(r, c), role, PROBATOR, c.kind, Some(PROBATOR), c.probatorParams);
    }
  }

  lemma ApplyPlays(r: Recv, c: Call, role: Option<string>)
    requires Callable(r, c) && Plays(r.h, role, "server", false)
    ensures Plays(Apply(r, c).h, role, "server", false)
  {
    if Refusal(r, c).Some? {
      assert Apply(r, c) == r;
    } else {
      match c
      case Consume(_, _, _, _, _, _, _) => ConsumePlays(r, c, role);
      case CloseConsumer(k) =>
        if HStop(r.h, r.book.all[k].localId).Some? {
          StopPlays(r.h, role, "server", false, r.book.all[k].localId);
        }
      case CloseTransport =>
      case ConsumeData(_, _, _) => ReceiveDataPlays(r.h, role);
      case RestartIce(ice) => RestartIcePlays(r.h, role, "server", false, ice);
    }
  }

  /** In any run at all of a transport made with `role`, every section is an offer, made once the transport is
      ready, and the remote role then is the one given, or server if none or auto was. */
  lemma {:induction false} RoleInRun(
    t: seq<Recv>, calls: seq<Call>, ice: Ice, role: Option<string>, extended: Ortc.Extended, i: nat)
    requires Calls(t, calls) && t[0] == NewRecv(ice, role, extended) && i < |t|
    ensures Plays(t[i].h, role, "server", false)
  {
    if i == 0 {
    } else {
      RoleInRun(t, calls, ice, role, extended, i - 1);
      ApplyPlays(t[i - 1], calls[i - 1], role);
    }
  }

  /** The books of a run and which of its calls close the transport. */
  ghost function Books(t: seq<Recv>): (b: seq<Book>)
    ensures |b| == |t| && forall i :: 0 <= i < |t| ==> b[i] == t[i].book
  {
    seq(|t|, i requires 0 <= i < |t| => t[i].book)
  }

  ghost function Closings(calls: seq<Call>): (c: seq<bool>)
    ensures |c| == |calls| && forall i :: 0 <= i < |calls| ==> c[i] == calls[i].CloseTransport?
  {
    seq(|calls|, i requires 0 <= i < |calls| => calls[i].CloseTransport?)
  }

  lemma ApplyTells(r: Recv, c: Call)
    requires Inv(r) && Callable(r, c)
    ensures Told(r.book, c.CloseTransport?, Apply(r, c).book)
  {
    if c.CloseTransport? {
      ShutTells(r.book);
    } else if c.CloseConsumer? {
      StrikeTells(r.book, c.k);
    } else if c.Consume? && Refusal(r, c).None? {
      EnlistTells(r.book, c.id, LocalId(r.h, c.mid));
    } else {
      IdleTells(r.book);
    }
  }

  /** In every run a consumer's listener hears `OnTransportClose` once if the consumer was open when the
      transport was closed, and never otherwise; from then on every consumer is closed. */
  lemma ConsumersToldOnce(t: seq<Recv>, calls: seq<Call>, i: nat, k: nat)
    requires Run(t, calls) && i < |t| && k < |t[i].book.all|
    ensures var n := FirstClosing(Closings(calls));
            && t[i].book.all[k].notified ==
                 (if i > n && k < |t[n].book.all| && !t[n].book.all[k].closed then 1 else 0)
            && (i > n ==> t[i].book.all[k].closed)
  {
    forall i | 0 <= i < |calls| ensures Told(t[i].book, calls[i].CloseTransport?, t[i + 1].book) {
      RunInv(t, calls, i);
      ApplyTells(t[i], calls[i]);
    }
    NotifiedOnce(Books(t), Closings(calls), i, k);
  }
}
