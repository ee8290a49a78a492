/**
  The sending side on values: `SendTransport` and its `Producer`s (src/Transport.cpp, src/Producer.cpp)
  over the handler layer. `stops` records the `StopSending` calls in order.
 */
module SendModel {
  import opened Text
  import opened MediaSections
  import opened RemoteSdpModel
  import opened HandlerModel
  import opened Endpoints

  datatype Send = Send(h: Handler, book: Book, stops: seq<string>)

  /** The track handed to `Produce`; `kind` is looked up in `canProduceByKind`. */
  datatype Track = NoTrack | Ended | Live(kind: string)

  /** How `OnProduce` ends: with an id, with the library's own error, which is caught, or with another
      exception, which is not. */
  datatype Verdict = Accepted(id: string) | Rejected | Broken

  /** The options of a data channel; -1 retransmits and lifetime 0 mean that none is set. */
  datatype DataOptions = DataOptions(ordered: bool, maxRetransmits: int, maxPacketLifeTime: int)

  /** What comes of the codecs of a new producer: one is picked; or the codec options do not validate or the
      codecs cannot be reduced, which throws before anything is done; or there is none to pick from and no
      capability is given, so that a null is picked, which throws when its MIME type is read, after the
      transport has been set up. */
  datatype Codecs = OnePicked | Unreducible(message: string) | NullPicked

  /** `offer` is the media object the PeerConnection made for the new transceiver. */
  datatype Call =
    | Produce(track: Track, codecs: Codecs, offer: OfferedMedia, params: RtpParams, verdict: Verdict)
    | CloseProducer(k: nat)
    | CloseTransport
    | ProduceData(offer: OfferedMedia, sctp: bool, data: DataOptions)
    | RestartIce(ice: Ice)

  function NewSend(ice: Ice, role: Option<string>): Send { Send(NewHandler(ice, role), EMPTY, []) }

  /** The checks of `ProduceData`; the messages are cut to their first words. */
  function DataRefusal(sctp: bool, data: DataOptions): Option<string>
  {
    var limited := data.maxRetransmits != -1 || data.maxPacketLifeTime != 0;
    if !sctp then Some("SctpParameters are mandatory")
    else if data.maxRetransmits != -1 && data.maxPacketLifeTime != 0
    then Some("Cannot set both")
    else if data.ordered && limited then Some("cannot be ordered")
    else None
  }

  /** The exception thrown before anything is done. `ProduceData` has no check for a closed transport. */
  function Refusal(s: Send, c: Call): Option<string>
  {
    match c
    case Produce(track, codecs, _, _, _) =>
      if s.book.closed then Some("SendTransport closed")
      else if track.NoTrack? then Some("missing track")
      else if track.Ended? then Some("track ended")
      else if track.kind != "audio" && track.kind != "video" then Some("cannot produce track kind")
      else if codecs.Unreducible? then Some(codecs.message)
      else None
    case ProduceData(_, sctp, data) => DataRefusal(sctp, data)
    case RestartIce(_) => if s.book.closed then Some("Transport closed") else None
    case _ => None
  }

  /** `StopSending`, recorded; when it throws the handler stays as it is. */
  function Stopped(s: Send, localId: string): Send
    requires Sound(s.h)
  {
    match HStop(s.h, localId)
    case None => s.(stops := s.stops + [localId])
    case Some(h) => s.(h := h, stops := s.stops + [localId])
  }

  function Sent(s: Send, c: Call): (h: Handler)
    requires c.Produce? && Sound(s.h)
    ensures Sound(h)
  {
    SendSound(s.h, c.offer, c.params);
    HSend(s.h, c.offer, c.params)
  }

  function Produced(s: Send, c: Call): Send
    requires c.Produce? && Sound(s.h)
  {
    var s1 := s.(h := Sent(s, c));
    match c.verdict
    case Accepted(id) => s1.(book := Enlist(s.book, id, c.offer.mid))
    case Rejected => Stopped(s1, c.offer.mid)
    case Broken => s1
  }

  function DataSent(s: Send, offer: OfferedMedia): Send
    requires Sound(s.h)
  {
    s.(h := HSendData(s.h, offer))
  }

  /** What `Send` has done when it throws on a null codec: the new transceiver is taken back. */
  function SetUp(s: Send): Send { s.(h := Setup(s.h, "server")) }

  /** A `Produce` that passes its checks and has a codec. */
  predicate Sends(s: Send, c: Call) { c.Produce? && Refusal(s, c).None? && !c.codecs.NullPicked? }

  /** `Producer::Close`, then `SendTransport::OnClose`. */
  function ProducerClosed(s: Send, k: nat): Send
    requires k < |s.book.all| && Sound(s.h)
  {
    var p := s.book.all[k];
    var s1 := s.(book := Strike(s.book, k));
    if p.closed || s.book.closed then s1 else Stopped(s1, p.localId)
  }

  /** The exception that a producer's close passes on. */
  function CloseThrows(s: Send, k: nat): Option<string>
    requires k < |s.book.all| && Sound(s.h)
  {
    if s.book.all[k].closed || s.book.closed || HStop(s.h, s.book.all[k].localId).Some? then None
    else Some("associated RtpTransceiver not found")
  }

  predicate Callable(s: Send, c: Call) { Sound(s.h) && (c.CloseProducer? ==> c.k < |s.book.all|) }

  function Apply(s: Send, c: Call): Send
    requires Callable(s, c)
  {
    if Refusal(s, c).Some? then s
    else match c
      case Produce(_, codecs, _, _, _) => if codecs.NullPicked? then SetUp(s) else Produced(s, c)
      case CloseProducer(k) => ProducerClosed(s, k)
      case CloseTransport => s.(book := Shut(s.book))
      case ProduceData(offer, _, _) => DataSent(s, offer)
      case RestartIce(ice) => s.(h := HRestartIce(s.h, ice))
  }

  // ----- the invariant ----------------------------------------------------------------------

  /** `StopSending` was called at most once for a mid, only for mids handed out, and for no live one. */
  ghost predicate StoppedOnce(s: Send) {
    && (forall i, j :: 0 <= i < j < |s.stops| ==> s.stops[i] != s.stops[j])
    && (forall i :: 0 <= i < |s.stops| ==> s.stops[i] in s.h.transceivers)
    && (forall k :: 0 <= k < |s.book.all| && !s.book.all[k].closed ==> s.book.all[k].localId !in s.stops)
  }

  ghost predicate Inv(s: Send) {
    Sound(s.h) && Coherent(s.h.sdp) && Owned(s.h, s.book.all) && Exact(s.book) && StoppedOnce(s)
  }

  /** The PeerConnection hands out mids it never used before, the server producer ids not in use. */
  ghost predicate Allowed(s: Send, c: Call)
    requires Callable(s, c)
  {
    Refusal(s, c).None? ==>
      match c
      case Produce(_, codecs, offer, _, verdict) => !codecs.NullPicked? ==>
        && Enters(s.h.sdp, offer.mid) && offer.mid !in s.h.transceivers
        && (verdict.Accepted? ==> verdict.id !in s.book.index)
      case ProduceData(offer, _, _) => !s.h.hasData ==> offer.mid != "" && offer.mid !in s.h.sdp.midToIndex
      case _ => true
  }

  lemma SentHolds(s: Send, c: Call)
    requires Inv(s) && Callable(s, c) && Sends(s, c) && Allowed(s, c)
    ensures var h := Sent(s, c);
            && Coherent(h.sdp) && Owned(h, s.book.all) && Backed(h, c.offer.mid) && !Holds(s.h.sdp, c.offer.mid)
            && h.transceivers == s.h.transceivers[c.offer.mid := c.offer.mid]
  {
    var h := Sent(s, c);
    assert h == HSend(s.h, c.offer, c.params);
    SendHolds(s.h, c.offer, c.params);
    OwnedAfter(s.h, h, s.book.all);
  }

  /** The mid of a new producer is nobody's yet. */
  lemma OfferedMidIsNew(s: Send, c: Call)
    requires Inv(s) && Callable(s, c) && Sends(s, c) && Allowed(s, c)
    ensures forall k :: 0 <= k < |s.book.all| && !s.book.all[k].closed ==> s.book.all[k].localId != c.offer.mid
    ensures c.offer.mid !in s.stops
  {
    forall k | 0 <= k < |s.book.all| && !s.book.all[k].closed ensures s.book.all[k].localId != c.offer.mid {
      assert Backed(s.h, s.book.all[k].localId);
    }
  }

  /** A `StopSending` for a backed mid that no live producer owns. */
  lemma StoppedKeeps(s: Send, mid: string)
    requires Inv(s) && Backed(s.h, mid) && mid !in s.stops
    requires forall k :: 0 <= k < |s.book.all| && !s.book.all[k].closed ==> s.book.all[k].localId != mid
    ensures Inv(Stopped(s, mid))
  {
    StopHolds(s.h, mid);
    StopSound(s.h, mid);
    var h := HStop(s.h, mid).value;
    forall k | 0 <= k < |s.book.all| && !s.book.all[k].closed ensures Backed(h, s.book.all[k].localId) {
      assert Backed(s.h, s.book.all[k].localId);
    }
  }

  lemma ProduceKeeps(s: Send, c: Call)
    requires Inv(s) && Callable(s, c) && Sends(s, c) && Allowed(s, c)
    ensures Inv(Produced(s, c))
  {
    SentHolds(s, c);
    OfferedMidIsNew(s, c);
    SentKeeps(s, c);
    match c.verdict
    case Accepted(id) => AcceptedKeeps(s, c);
    case Rejected => StoppedKeeps(s.(h := Sent(s, c)), c.offer.mid);
    case Broken =>
  }

  lemma SentKeeps(s: Send, c: Call)
    requires Inv(s) && Callable(s, c) && Sends(s, c) && Allowed(s, c)
    ensures Inv(s.(h := Sent(s, c)))
  {
    SentHolds(s, c);
  }

  lemma AcceptedKeeps(s: Send, c: Call)
    requires Inv(s) && Callable(s, c) && Sends(s, c) && Allowed(s, c) && c.verdict.Accepted?
    ensures Inv(s.(h := Sent(s, c), book := Enlist(s.book, c.verdict.id, c.offer.mid)))
  {
    SentHolds(s, c);
    OfferedMidIsNew(s, c);
    OwnedEnlist(s.h, Sent(s, c), s.book, c.verdict.id, c.offer.mid);
    EnlistKeeps(s.book, c.verdict.id, c.offer.mid);
  }

  lemma ShutInv(s: Send)
    requires Inv(s)
    ensures Inv(s.(book := Shut(s.book)))
  {
    ShutKeeps(s.book);
    OwnedShut(s.h, s.book);
  }

  lemma RestartKeeps(s: Send, ice: Ice)
    requires Inv(s)
    ensures Inv(s.(h := HRestartIce(s.h, ice)))
  {
    IceKeeps(s.h, s.book.all, ice);
    RestartIceHolds(s.h, ice);
  }

  lemma SetUpKeeps(s: Send)
    requires Inv(s)
    ensures Inv(SetUp(s)) && OpenKept(s.h.sdp, SetUp(s).h.sdp, "")
  {
    SetupSound(s.h, "server");
    SetupHolds(s.h, "server");
    OwnedAfter(s.h, Setup(s.h, "server"), s.book.all);
  }

  lemma CloseProducerKeeps(s: Send, k: nat)
    requires Inv(s) && k < |s.book.all|
    ensures Inv(ProducerClosed(s, k))
  {
    var s1 := s.(book := Strike(s.book, k));
    StrikeKeeps(s.book, k);
    if !s.book.all[k].closed {
      assert Backed(s.h, s.book.all[k].localId);
      StruckInv(s, k);
      if !s.book.closed {
        StoppedKeeps(s1, s.book.all[k].localId);
      }
    }
  }

  lemma StruckInv(s: Send, k: nat)
    requires Inv(s) && k < |s.book.all| && !s.book.all[k].closed
    ensures Inv(s.(book := Strike(s.book, k)))
    ensures forall j :: 0 <= j < |s.book.all| && j != k && !s.book.all[j].closed ==>
              s.book.all[j].localId != s.book.all[k].localId
  {
    StrikeKeeps(s.book, k);
    assert OpenKept(s.h.sdp, s.h.sdp, s.book.all[k].localId);
    OwnedStrike(s.h, s.h, s.book, k);
  }

  lemma DataKeeps(h: Handler, all: seq<Endpoint>, offer: OfferedMedia)
    requires Sound(h) && Coherent(h.sdp) && Owned(h, all)
    requires !h.hasData ==> offer.mid != "" && offer.mid !in h.sdp.midToIndex
    ensures var h' := HSendData(h, offer);
            Sound(h') && Coherent(h'.sdp) && Owned(h', all) && h'.transceivers == h.transceivers
  {
    SendDataHolds(h, offer);
    SendDataSound(h, offer);
    OwnedAfter(h, HSendData(h, offer), all);
  }

  /** Every allowed call keeps the invariant. */
  lemma ApplyKeeps(s: Send, c: Call)
    requires Inv(s) && Callable(s, c) && Allowed(s, c)
    ensures Inv(Apply(s, c))
  {
    if Refusal(s, c).Some? {
      assert Apply(s, c) == s;
    } else if Sends(s, c) {
      assert Apply(s, c) == Produced(s, c);
      ProduceKeeps(s, c);
    } else {
      match c
      case Produce(_, _, _, _, _) => SetUpKeeps(s);
      case CloseProducer(k) => CloseProducerKeeps(s, k);
      case CloseTransport => ShutInv(s);
      case ProduceData(offer, _, _) => DataSentKeeps(s, offer);
      case RestartIce(ice) => RestartKeeps(s, ice);
    }
  }

  lemma DataSentKeeps(s: Send, offer: OfferedMedia)
    requires Inv(s) && (!s.h.hasData ==> offer.mid != "" && offer.mid !in s.h.sdp.midToIndex)
    ensures Inv(DataSent(s, offer))
  {
    DataKeeps(s.h, s.book.all, offer);
  }

  // ----- runs -------------------------------------------------------------------------------

  ghost predicate Run(t: seq<Send>, calls: seq<Call>) {
    && |t| == |calls| + 1
    && (exists ice: Ice, role: Option<string> :: t[0] == NewSend(ice, role))
    && forall i :: 0 <= i < |calls| ==>
         Callable(t[i], calls[i]) && Allowed(t[i], calls[i]) && t[i + 1] == Apply(t[i], calls[i])
  }

  /** In every run: the table is coherent, live producers own distinct open sections, the map holds
      exactly the live producers while the transport is open and none is live after it closed, and
      `StopSending` ran at most once for a mid. */
  lemma {:induction false} RunInv(t: seq<Send>, calls: seq<Call>, i: nat)
    requires Run(t, calls) && i < |t|
    ensures Inv(t[i])
  {
    if i == 0 {
    } else {
      RunInv(t, calls, i - 1);
      ApplyKeeps(t[i - 1], calls[i - 1]);
    }
  }

  /** A call runs `StopSending` only to close one live producer of an open transport, or to undo a
      `Produce` that the server rejected; never after the transport closed. */
  lemma StopsOnlyWhileOpen(s: Send, c: Call)
    requires Callable(s, c)
    ensures var stops := Apply(s, c).stops;
            || stops == s.stops
            || (!s.book.closed && exists mid :: stops == s.stops + [mid] && StopReason(s, c, mid))
  {
    if Refusal(s, c).None? && Apply(s, c).stops != s.stops {
      var mid := if c.CloseProducer? then s.book.all[c.k].localId else c.offer.mid;
      assert StopReason(s, c, mid);
    }
  }

  ghost predicate StopReason(s: Send, c: Call, mid: string) {
    || (c.CloseProducer? && c.k < |s.book.all| && !s.book.all[c.k].closed && mid == s.book.all[c.k].localId)
    || (Sends(s, c) && c.verdict == Rejected && mid == c.offer.mid)
  }

  lemma {:induction false} NoStopAfterClose(t: seq<Send>, calls: seq<Call>, i: nat, j: nat)
    requires Run(t, calls) && i <= j < |t| && t[i].book.closed
    ensures t[j].book.closed && t[j].stops == t[i].stops
  {
    if i == j {
    } else {
      NoStopAfterClose(t, calls, i, j - 1);
      StopsOnlyWhileOpen(t[j - 1], calls[j - 1]);
    }
  }

  /** Closing a live producer closes a section that is in the table and open, or only silences it if it is the
      first, and changes no other. */
  lemma EveryCloseIsSafe(t: seq<Send>, calls: seq<Call>, i: nat)
    requires Run(t, calls) && i < |calls| && calls[i].CloseProducer?
    requires !t[i].book.closed && !t[i].book.all[calls[i].k].closed
    ensures var s, s' := t[i].h.sdp, t[i + 1].h.sdp;
            var mid := t[i].book.all[calls[i].k].localId;
            && HStop(t[i].h, mid) == Some(t[i + 1].h) && Holds(s, mid) && |s'.sections| == |s.sections|
            && ClosedBy(s, mid, s') && (Holds(s', mid) <==> mid == s.firstMid)
            && forall n :: 0 <= n < |s.sections| && n != s.midToIndex[mid] ==> s'.sections[n] == s.sections[n]
  {
    RunInv(t, calls, i);
    StopIsSafe(t[i].h, t[i].book, calls[i].k);
  }

  /** A rejected `Produce` is undone: it closes the section it has just made, which is in the table and open,
      and changes no other; every live producer keeps its section and its index. */
  lemma RejectedProduceIsSafe(t: seq<Send>, calls: seq<Call>, i: nat)
    requires Run(t, calls) && i < |calls| && Sends(t[i], calls[i]) && calls[i].verdict == Rejected
    ensures Inv(t[i]) && Undone(t[i], calls[i], t[i + 1])
  {
    RunInv(t, calls, i);
    RejectionUndoes(t[i], calls[i]);
  }

  /** A `Produce` of a kind that cannot be sent, with no capability given, fails and still sets the transport
      up: it changes the transport exactly when that has not been done yet. Then the DTLS role and the
      transport are ready; no section is made, none is opened or closed, no producer is enlisted and nothing
      is stopped. */
  lemma UnsendableChangesIff(s: Send, c: Call)
    requires Inv(s) && Callable(s, c) && c.Produce? && Refusal(s, c).None? && c.codecs.NullPicked?
    ensures var s' := Apply(s, c);
            && (s' == s <==> s.h.ready)
            && s'.h.ready && (!s.h.ready ==> s'.h.sdp.role == "client" || s'.h.sdp.role == "server")
            && s'.book == s.book && s'.stops == s.stops && s'.h.transceivers == s.h.transceivers
            && NextIdx(s'.h.sdp) == NextIdx(s.h.sdp) && OpenKept(s.h.sdp, s'.h.sdp, "")
            && |s'.h.sdp.sections| == |s.h.sdp.sections|
            && forall i :: 0 <= i < |s.h.sdp.sections| ==>
                 s'.h.sdp.sections[i].mid == s.h.sdp.sections[i].mid
                 && s'.h.sdp.sections[i].port == s.h.sdp.sections[i].port
  {
    SetupSound(s.h, "server");
    SetUpKeeps(s);
  }

  /** `Produce` sends exactly when the transport is open, there is a track that has not ended, of kind audio or
      video, and a codec is picked. */
  lemma SendsIff(s: Send, c: Call)
    requires c.Produce?
    ensures Sends(s, c) <==>
            && !s.book.closed && c.track.Live? && (c.track.kind == "audio" || c.track.kind == "video")
            && c.codecs.OnePicked?
  {
  }

  /** A data producer needs SCTP, at most one of the two limits, and none if it is ordered, on a transport in
      any state; an ICE restart needs an open transport; closing is never refused. */
  lemma OthersGoThroughIff(s: Send, c: Call)
    requires !c.Produce?
    ensures Refusal(s, c).None? <==>
            match c
            case ProduceData(_, sctp, data) =>
              && sctp && (data.maxRetransmits == -1 || data.maxPacketLifeTime == 0)
              && (data.ordered ==> data.maxRetransmits == -1 && data.maxPacketLifeTime == 0)
            case RestartIce(_) => !s.book.closed
            case _ => true
  {
  }

  /** The close of a producer throws exactly when it is the first, on an open transport, and the mid map does
      not have its local id. */
  lemma CloseThrowsIff(s: Send, k: nat)
    requires k < |s.book.all| && Sound(s.h)
    ensures CloseThrows(s, k).Some? <==>
            !s.book.closed && !s.book.all[k].closed && s.book.all[k].localId !in s.h.transceivers
  {
  }

  /** In every run a `Produce` that is not rejected leaves, at the announced place, a section that answers the
      offered one; only if it is accepted a producer is listed. */
  lemma EveryProducerIsAnswered(t: seq<Send>, calls: seq<Call>, i: nat)
    requires Run(t, calls) && i < |calls| && Sends(t[i], calls[i]) && calls[i].verdict != Rejected
    ensures var c, s := calls[i], t[i + 1].h.sdp;
            && NextIdx(t[i].h.sdp).idx < |s.sections|
            && Answers(s.sections[NextIdx(t[i].h.sdp).idx], c.offer, c.params)
            && (if c.verdict.Accepted?
                then c.verdict.id in t[i + 1].book.index && |t[i + 1].book.all| == |t[i].book.all| + 1
                else t[i + 1].book == t[i].book)
  {
    RunInv(t, calls, i);
    var s, c := t[i], calls[i];
    assert t[i + 1] == Produced(s, c);
    assert Sent(s, c) == HSend(s.h, c.offer, c.params);
    SentSectionAnswers(s.h, c.offer, c.params);
  }

  ghost predicate Undone(s: Send, c: Call, s': Send)
    requires Inv(s) && c.Produce?
  {
    var sent, mid := Sent(s, c), c.offer.mid;
    && HStop(sent, mid) == Some(s'.h) && Holds(sent.sdp, mid)
    && ClosedBy(sent.sdp, mid, s'.h.sdp) && (Holds(s'.h.sdp, mid) <==> mid == sent.sdp.firstMid)
    && OthersKept(sent.sdp, s'.h.sdp, sent.sdp.midToIndex[mid])
    && forall k :: 0 <= k < |s.book.all| && !s.book.all[k].closed ==>
         KeptBetween(s.h.sdp, s'.h.sdp, s.book.all[k].localId)
  }

  ghost predicate OthersKept(s: Sdp, s': Sdp, at: nat) {
    |s'.sections| == |s.sections| && forall n :: 0 <= n < |s.sections| && n != at ==> s'.sections[n] == s.sections[n]
  }

  lemma RejectionUndoes(s: Send, c: Call)
    requires Inv(s) && Callable(s, c) && Sends(s, c) && c.verdict == Rejected && Allowed(s, c)
    ensures Undone(s, c, Apply(s, c))
  {
    SentHolds(s, c);
    var sent, mid := Sent(s, c), c.offer.mid;
    StopUndoes(sent, mid);
    forall k | 0 <= k < |s.book.all| && !s.book.all[k].closed
      ensures KeptBetween(s.h.sdp, HStop(sent, mid).value.sdp, s.book.all[k].localId)
    {
      LiveIsKept(s, c, k);
    }
  }

  lemma StopUndoes(h: Handler, mid: string)
    requires Sound(h) && Coherent(h.sdp) && Backed(h, mid)
    ensures HStop(h, mid).Some? && OpenKept(h.sdp, HStop(h, mid).value.sdp, mid)
    ensures ClosedBy(h.sdp, mid, HStop(h, mid).value.sdp)
    ensures Holds(HStop(h, mid).value.sdp, mid) <==> mid == h.sdp.firstMid
    ensures OthersKept(h.sdp, HStop(h, mid).value.sdp, h.sdp.midToIndex[mid])
  {
    StopHolds(h, mid);
    StopCloses(h, mid);
    IndexIsOwn(h.sdp, mid);
  }

  lemma LiveIsKept(s: Send, c: Call, k: nat)
    requires Inv(s) && Callable(s, c) && Sends(s, c) && Allowed(s, c)
    requires k < |s.book.all| && !s.book.all[k].closed && HStop(Sent(s, c), c.offer.mid).Some?
    requires OpenKept(Sent(s, c).sdp, HStop(Sent(s, c), c.offer.mid).value.sdp, c.offer.mid)
    ensures KeptBetween(s.h.sdp, HStop(Sent(s, c), c.offer.mid).value.sdp, s.book.all[k].localId)
  {
    var live := s.book.all[k].localId;
    assert Backed(s.h, live);
    HeldMidNonEmpty(s.h.sdp, live);
    SendHolds(s.h, c.offer, c.params);
    assert Holds(Sent(s, c).sdp, live);
  }

  /** The section of `mid` is open before and after, at the same index. */
  ghost predicate KeptBetween(s: Sdp, t: Sdp, mid: string) {
    Holds(s, mid) && Holds(t, mid) && t.midToIndex[mid] == s.midToIndex[mid]
  }

  lemma IndexIsOwn(s: Sdp, mid: string)
    requires Coherent(s) && Holds(s, mid)
    ensures forall n :: 0 <= n < |s.sections| && n != s.midToIndex[mid] ==> s.sections[n].mid != mid
  {
  }

  // ----- roles and streams ------------------------------------------------------------------------

  /** A handler that is ready has a DTLS role to put into answer sections, given or not. */
  ghost predicate RoleKnown(h: Handler) { h.ready ==> h.sdp.role == "client" || h.sdp.role == "server" }

  lemma ApplyKeepsRole(s: Send, c: Call)
    requires Callable(s, c) && RoleKnown(s.h)
    ensures RoleKnown(Apply(s, c).h)
  {
    match c
    case Produce(_, _, _, _, _) => SentKeepsRole(s, c);
    case ProduceData(offer, _, _) => DataKeepsRole(s.h, offer);
    case _ =>
  }

  lemma SentKeepsRole(s: Send, c: Call)
    requires Callable(s, c) && c.Produce? && RoleKnown(s.h)
    ensures RoleKnown(Produced(s, c).h)
  {
    assert RoleKnown(Sent(s, c));
  }

  lemma DataKeepsRole(h: Handler, offer: OfferedMedia)
    requires Sound(h) && RoleKnown(h)
    ensures RoleKnown(HSendData(h, offer))
  {
  }

  /** In every run, whatever role the transport was made with, an answer section is made with a role that
      has a setup value: the first negotiation sets it. */
  lemma {:induction false} AnswersKnowTheRole(t: seq<Send>, calls: seq<Call>, i: nat)
    requires Run(t, calls) && i < |t|
    ensures RoleKnown(t[i].h) && SetupFor(Setup(t[i].h, "server").sdp.role).Some?
  {
    if i == 0 {
    } else {
      AnswersKnowTheRole(t, calls, i - 1);
      ApplyKeepsRole(t[i - 1], calls[i - 1]);
    }
  }

  lemma StoppedPlays(s: Send, role: Option<string>, mid: string)
    requires Sound(s.h) && Plays(s.h, role, "client", true)
    ensures Plays(Stopped(s, mid).h, role, "client", true)
  {
    if HStop(s.h, mid).Some? {
      StopPlays(s.h, role, "client", true, mid);
    }
  }

  lemma ApplyPlays(s: Send, c: Call, role: Option<string>)
    requires Callable(s, c) && Plays(s.h, role, "client", true)
    ensures Plays(Apply(s, c).h, role, "client", true)
  {
    if Refusal(s, c).Some? {
      assert Apply(s, c) == s;
    } else {
      match c
      case Produce(_, _, offer, params, _) =>
        SetupPlays(s.h, role, "server", "client", true);
        SendPlays(s.h, role, offer, params);
        StoppedPlays(s.(h := Sent(s, c)), role, offer.mid);
      case CloseProducer(k) => StoppedPlays(s.(book := Strike(s.book, k)), role, s.book.all[k].localId);
      case CloseTransport =>
      case ProduceData(offer, _, _) => SendDataPlays(s.h, role, offer);
      case RestartIce(ice) => RestartIcePlays(s.h, role, "client", true, ice);
    }
  }

  lemma {:induction false} RunPlays(t: seq<Send>, calls: seq<Call>, ice: Ice, role: Option<string>, i: nat)
    requires Run(t, calls) && t[0] == NewSend(ice, role) && i < |t|
    ensures Plays(t[i].h, role, "client", true)
  {
    if i == 0 {
    } else {
      RunPlays(t, calls, ice, role, i - 1);
      ApplyPlays(t[i - 1], calls[i - 1], role);
    }
  }

  /** In every run of a transport made with `role`, every section is an answer, made once the transport is
      ready; it says "passive" if the remote role was given as server and "active" otherwise. */
  lemma SetupsInRun(t: seq<Send>, calls: seq<Call>, ice: Ice, role: Option<string>, i: nat, k: nat)
    requires Run(t, calls) && t[0] == NewSend(ice, role) && i < |t| && k < |t[i].h.sdp.sections|
    ensures t[i].h.ready && t[i].h.sdp.sections[k].answer
    ensures t[i].h.sdp.sections[k].setup == Some(if role == Some("server") then "passive" else "active")
  {
    RunInv(t, calls, i);
    RunPlays(t, calls, ice, role, i);
    assert Credentials(t[i].h.sdp.sections[k], t[i].h.sdp.ice, t[i].h.sdp.role);
  }

  /** Which calls make a data channel. */
  ghost function Channels(t: seq<Send>, calls: seq<Call>): (made: seq<bool>)
    requires |t| == |calls| + 1
    ensures |made| == |calls|
    ensures forall i :: 0 <= i < |calls| ==> made[i] == (calls[i].ProduceData? && Refusal(t[i], calls[i]).None?)
  {
    seq(|calls|, i requires 0 <= i < |calls| => calls[i].ProduceData? && Refusal(t[i], calls[i]).None?)
  }

  function Count(made: seq<bool>): nat
  {
    if made == [] then 0 else Count(made[..|made| - 1]) + if made[|made| - 1] then 1 else 0
  }

  lemma StreamNext(s: Send, c: Call)
    requires Callable(s, c)
    ensures Apply(s, c).h.nextStream ==
            if c.ProduceData? && Refusal(s, c).None? then NextStream(s.h.nextStream) else s.h.nextStream
  {
  }

  ghost predicate StreamsAlong(t: seq<Send>, made: seq<bool>) {
    && |t| == |made| + 1 && t[0].h.nextStream == 0
    && forall i :: 0 <= i < |made| ==>
         t[i + 1].h.nextStream == if made[i] then NextStream(t[i].h.nextStream) else t[i].h.nextStream
  }

  lemma RunStreams(t: seq<Send>, calls: seq<Call>)
    requires Run(t, calls)
    ensures StreamsAlong(t, Channels(t, calls))
  {
    forall i | 0 <= i < |calls|
      ensures t[i + 1].h.nextStream ==
              if Channels(t, calls)[i] then NextStream(t[i].h.nextStream) else t[i].h.nextStream
    {
      StreamNext(t[i], calls[i]);
    }
  }

  lemma NextStreamOf(n: nat)
    ensures NextStream(n % SCTP_STREAMS) == (n + 1) % SCTP_STREAMS
  {
  }

  /** The two counts differ by whole rounds through the streams. */
  predicate WholeRounds(a: nat, b: nat) { (a - b) % SCTP_STREAMS == 0 }

  lemma SameStream(a: nat, b: nat, x: nat, y: nat)
    requires x == a % SCTP_STREAMS && y == b % SCTP_STREAMS
    ensures x == y <==> WholeRounds(a, b)
  {
    var q, r := a / SCTP_STREAMS, b / SCTP_STREAMS;
    assert a - b == (q - r) * SCTP_STREAMS + (x - y);
  }

  lemma {:induction false} StreamsCycle(t: seq<Send>, made: seq<bool>, i: nat)
    requires StreamsAlong(t, made) && i < |t|
    ensures t[i].h.nextStream == Count(made[..i]) % SCTP_STREAMS
  {
    if i == 0 {
    } else {
      StreamsCycle(t, made, i - 1);
      assert made[..i][..i - 1] == made[..i - 1];
      NextStreamOf(Count(made[..i - 1]));
    }
  }

  /** In every run the stream of the next data channel is the number of data channels so far modulo 1024; so
      two data channels share a stream exactly when a multiple of 1024 channels lies between them. */
  lemma StreamSharedIff(t: seq<Send>, calls: seq<Call>, i: nat, j: nat)
    requires Run(t, calls) && i < |t| && j < |t|
    ensures var made := Channels(t, calls);
            && t[i].h.nextStream == Count(made[..i]) % SCTP_STREAMS
            && (t[i].h.nextStream == t[j].h.nextStream <==> WholeRounds(Count(made[..i]), Count(made[..j])))
  {
    var made := Channels(t, calls);
    RunStreams(t, calls);
    StreamsCycle(t, made, i);
    StreamsCycle(t, made, j);
    SameStream(Count(made[..i]), Count(made[..j]), t[i].h.nextStream, t[j].h.nextStream);
  }

  ghost function Books(t: seq<Send>): (b: seq<Book>)
    ensures |b| == |t| && forall i :: 0 <= i < |t| ==> b[i] == t[i].book
  {
    seq(|t|, i requires 0 <= i < |t| => t[i].book)
  }

  ghost function Closings(calls: seq<Call>): (c: seq<bool>)
    ensures |c| == |calls| && forall i :: 0 <= i < |calls| ==> c[i] == calls[i].CloseTransport?
  {
    seq(|calls|, i requires 0 <= i < |calls| => calls[i].CloseTransport?)
  }

  ghost predicate InMap(b: Book, k: nat)
    requires k < |b.all|
  {
    b.all[k].id in b.index && b.index[b.all[k].id] == k
  }

  lemma ApplyTells(s: Send, c: Call)
    requires Inv(s) && Callable(s, c)
    ensures Told(s.book, c.CloseTransport?, Apply(s, c).book)
  {
    if c.CloseTransport? {
      ShutTells(s.book);
    } else if c.CloseProducer? {
      StrikeTells(s.book, c.k);
    } else if Sends(s, c) && c.verdict.Accepted? {
      EnlistTells(s.book, c.verdict.id, c.offer.mid);
    } else {
      IdleTells(s.book);
    }
  }

  /** In every run a producer's listener hears `OnTransportClose` once if the producer was open when the
      transport was closed, and never otherwise; before that the map has exactly the open producers, from
      then on none is open; and no mid was stopped twice. */
  lemma ProducersToldOnce(t: seq<Send>, calls: seq<Call>, i: nat, k: nat)
    requires Run(t, calls) && i < |t| && k < |t[i].book.all|
    ensures var n := FirstClosing(Closings(calls));
            && t[i].book.all[k].notified ==
                 (if i > n && k < |t[n].book.all| && !t[n].book.all[k].closed then 1 else 0)
            && (!t[i].book.all[k].closed <==> i <= n && InMap(t[i].book, k))
    ensures forall a, b :: 0 <= a < b < |t[i].stops| ==> t[i].stops[a] != t[i].stops[b]
  {
    forall i | 0 <= i < |calls| ensures Told(t[i].book, calls[i].CloseTransport?, t[i + 1].book) {
      RunInv(t, calls, i);
      ApplyTells(t[i], calls[i]);
    }
    NotifiedOnce(Books(t), Closings(calls), i, k);
    OpenUntilClosing(Books(t), Closings(calls), i);
    RunInv(t, calls, i);
  }
}
