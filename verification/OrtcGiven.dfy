/**
  What a negotiation hands out, said of the two capability sets as they were given: header extensions,
  receive capabilities, sending parameters of both sides and the feedback that is left (src/ortc.cpp).
 */
module OrtcGiven {
  import opened Text
  import opened Validators
  import opened Ortc
  import opened OrtcParams
  import opened OrtcSending

  // ----- header extensions --------------------------------------------------------------------

  predicate SameExt(a: HeaderExt, b: HeaderExt) { a.kind == b.kind && a.uri == b.uri }

  /** The local side has the extension too. */
  predicate Shared(locals: seq<HeaderExt>, r: HeaderExt) {
    exists k :: 0 <= k < |locals| && SameExt(locals[k], r)
  }

  function SharedBy(locals: seq<HeaderExt>): HeaderExt -> bool { r => Shared(locals, r) }

  /** The local extension at `k` is the first that is the same as `r`. */
  predicate FirstSame(locals: seq<HeaderExt>, r: HeaderExt, k: nat) {
    k < |locals| && SameExt(locals[k], r) && forall j :: 0 <= j < k ==> !SameExt(locals[j], r)
  }

  /** `x` is what remote extension `r` becomes: its ids are those of the two sides, encryption is up to the
      local one, and the direction is seen from the local side. */
  ghost predicate ExtFrom(locals: seq<HeaderExt>, r: HeaderExt, x: ExtExt) {
    && x.kind == r.kind && x.uri == r.uri && x.recvId == r.id
    && (exists k: nat :: FirstSame(locals, r, k) && x.sendId == locals[k].id && x.encrypt == locals[k].encrypt)
    && x.direction == (if r.direction == "sendrecv" then Some("sendrecv")
                       else if r.direction == "recvonly" then Some("sendonly")
                       else if r.direction == "sendonly" then Some("recvonly")
                       else if r.direction == "inactive" then Some("inactive")
                       else None)
  }

  ghost predicate AllExtFrom(locals: seq<HeaderExt>, sel: seq<HeaderExt>, e: seq<ExtExt>) {
    |e| == |sel| && forall a :: 0 <= a < |e| ==> ExtFrom(locals, sel[a], e[a])
  }

  lemma AllExtConcat(
    locals: seq<HeaderExt>, sel: seq<HeaderExt>, e: seq<ExtExt>, sel': seq<HeaderExt>, e': seq<ExtExt>)
    requires AllExtFrom(locals, sel, e) && AllExtFrom(locals, sel', e')
    ensures AllExtFrom(locals, sel + sel', e + e')
  {
  }

  lemma ExtendExtIs(locals: seq<HeaderExt>, r: HeaderExt)
    ensures var e := ExtendExt(locals, r);
            if Shared(locals, r) then |e| == 1 && ExtFrom(locals, r, e[0]) else e == []
  {
    var k := FirstExt(locals, r);
    if k < |locals| {
      assert SameExt(locals[k], r) && FirstSame(locals, r, k);
    }
  }

  /** The extended extensions are, in remote order, exactly the remote ones that the local side has too. */
  lemma {:induction false} ExtsFromGiven(locals: seq<HeaderExt>, remotes: seq<HeaderExt>)
    ensures AllExtFrom(locals, Select(remotes, SharedBy(locals)), ExtendExts(locals, remotes))
    decreases |remotes|
  {
    if remotes == [] {
    } else {
      var first, rest := ExtendExt(locals, remotes[0]), remotes[1..];
      ExtendExtIs(locals, remotes[0]);
      ExtsFromGiven(locals, rest);
      var head := if Shared(locals, remotes[0]) then [remotes[0]] else [];
      AllExtConcat(locals, head, first, Select(rest, SharedBy(locals)), ExtendExts(locals, rest));
    }
  }

  // The extensions to be received.

  lemma {:induction false} RecvExtsConcat(a: seq<ExtExt>, b: seq<ExtExt>)
    requires Directed(a + b)
    ensures Directed(a) && Directed(b) && RecvExts(a + b) == RecvExts(a) + RecvExts(b)
    decreases |b|
  {
    assert forall i :: 0 <= i < |a| ==> (a + b)[i] == a[i];
    assert forall i :: 0 <= i < |b| ==> (a + b)[|a| + i] == b[i];
    if b == [] {
      assert a + b == a;
    } else {
      var front := b[..|b| - 1];
      assert (a + b)[..|a + b| - 1] == a + front;
      RecvExtsConcat(a, front);
    }
  }

  /** The remote side sends with it, so that it is to be received. */
  predicate SentByRemote(locals: seq<HeaderExt>, r: HeaderExt) {
    Shared(locals, r) && (r.direction == "sendrecv" || r.direction == "sendonly")
  }

  function SentBy(locals: seq<HeaderExt>): HeaderExt -> bool { r => SentByRemote(locals, r) }

  ghost predicate RecvExtFrom(locals: seq<HeaderExt>, r: HeaderExt, x: HeaderExt) {
    && x.kind == r.kind && x.uri == r.uri && x.id == r.id
    && x.direction == (if r.direction == "sendrecv" then "sendrecv" else "recvonly")
    && exists k: nat :: FirstSame(locals, r, k) && x.encrypt == locals[k].encrypt
  }

  ghost predicate AllRecvExtFrom(locals: seq<HeaderExt>, sel: seq<HeaderExt>, x: seq<HeaderExt>) {
    |x| == |sel| && forall a :: 0 <= a < |x| ==> RecvExtFrom(locals, sel[a], x[a])
  }

  lemma AllRecvExtConcat(
    locals: seq<HeaderExt>, sel: seq<HeaderExt>, x: seq<HeaderExt>, sel': seq<HeaderExt>, x': seq<HeaderExt>)
    requires AllRecvExtFrom(locals, sel, x) && AllRecvExtFrom(locals, sel', x')
    ensures AllRecvExtFrom(locals, sel + sel', x + x')
  {
  }

  /** The receive capabilities list, in remote order, exactly the shared extensions that the remote side sends
      with, under the remote ids. */
  lemma {:induction false} RecvExtsFromGiven(locals: seq<HeaderExt>, remotes: seq<HeaderExt>)
    requires Directed(ExtendExts(locals, remotes))
    ensures AllRecvExtFrom(locals, Select(remotes, SentBy(locals)), RecvExts(ExtendExts(locals, remotes)))
    decreases |remotes|
  {
    if remotes == [] {
    } else {
      var first, rest := ExtendExt(locals, remotes[0]), remotes[1..];
      RecvExtsConcat(first, ExtendExts(locals, rest));
      RecvExtOfOne(locals, remotes[0]);
      RecvExtsFromGiven(locals, rest);
      var head := if SentByRemote(locals, remotes[0]) then [remotes[0]] else [];
      AllRecvExtConcat(locals, head, RecvExts(first), Select(rest, SentBy(locals)),
                       RecvExts(ExtendExts(locals, rest)));
    }
  }

  lemma RecvExtOfOne(locals: seq<HeaderExt>, r: HeaderExt)
    requires Directed(ExtendExt(locals, r))
    ensures var x := RecvExts(ExtendExt(locals, r));
            if SentByRemote(locals, r) then |x| == 1 && RecvExtFrom(locals, r, x[0]) else x == []
  {
    ExtendExtIs(locals, r);
    var e := ExtendExt(locals, r);
    if Shared(locals, r) {
      assert e[..0] == [];
      var k: nat :| FirstSame(locals, r, k) && e[0].sendId == locals[k].id && e[0].encrypt == locals[k].encrypt;
    }
  }

  // The extensions to be sent.

  lemma {:induction false} SendExtsConcat(kind: string, a: seq<ExtExt>, b: seq<ExtExt>)
    requires DirectedFor(a + b, kind)
    ensures DirectedFor(a, kind) && DirectedFor(b, kind)
    ensures SendExts(kind, a + b) == SendExts(kind, a) + SendExts(kind, b)
    decreases |b|
  {
    assert forall i :: 0 <= i < |a| ==> (a + b)[i] == a[i];
    assert forall i :: 0 <= i < |b| ==> (a + b)[|a| + i] == b[i];
    if b == [] {
      assert a + b == a;
    } else {
      var front := b[..|b| - 1];
      assert (a + b)[..|a + b| - 1] == a + front;
      SendExtsConcat(kind, a, front);
    }
  }

  /** The remote side receives with it, so that it may be sent. */
  predicate ReceivedByRemote(locals: seq<HeaderExt>, kind: string, r: HeaderExt) {
    r.kind == kind && Shared(locals, r) && (r.direction == "sendrecv" || r.direction == "recvonly")
  }

  function ReceivedBy(locals: seq<HeaderExt>, kind: string): HeaderExt -> bool
  {
    r => ReceivedByRemote(locals, kind, r)
  }

  ghost predicate SendExtFrom(locals: seq<HeaderExt>, r: HeaderExt, x: SendExt) {
    x.uri == r.uri && exists k: nat :: FirstSame(locals, r, k) && x.id == locals[k].id && x.encrypt == locals[k].encrypt
  }

  ghost predicate AllSendExtFrom(locals: seq<HeaderExt>, sel: seq<HeaderExt>, x: seq<SendExt>) {
    |x| == |sel| && forall a :: 0 <= a < |x| ==> SendExtFrom(locals, sel[a], x[a])
  }

  lemma AllSendExtConcat(
    locals: seq<HeaderExt>, sel: seq<HeaderExt>, x: seq<SendExt>, sel': seq<HeaderExt>, x': seq<SendExt>)
    requires AllSendExtFrom(locals, sel, x) && AllSendExtFrom(locals, sel', x')
    ensures AllSendExtFrom(locals, sel + sel', x + x')
  {
  }

  /** The sending parameters list, in remote order, exactly the shared extensions of the kind that the remote
      side receives with, under the local ids. */
  lemma {:induction false} SendExtsFromGiven(kind: string, locals: seq<HeaderExt>, remotes: seq<HeaderExt>)
    requires DirectedFor(ExtendExts(locals, remotes), kind)
    ensures AllSendExtFrom(locals, Select(remotes, ReceivedBy(locals, kind)),
                           SendExts(kind, ExtendExts(locals, remotes)))
    decreases |remotes|
  {
    if remotes == [] {
    } else {
      var first, rest := ExtendExt(locals, remotes[0]), remotes[1..];
      SendExtsConcat(kind, first, ExtendExts(locals, rest));
      SendExtOfOne(kind, locals, remotes[0]);
      SendExtsFromGiven(kind, locals, rest);
      var head := if ReceivedByRemote(locals, kind, remotes[0]) then [remotes[0]] else [];
      AllSendExtConcat(locals, head, SendExts(kind, first), Select(rest, ReceivedBy(locals, kind)),
                       SendExts(kind, ExtendExts(locals, rest)));
    }
  }

  lemma SendExtOfOne(kind: string, locals: seq<HeaderExt>, r: HeaderExt)
    requires DirectedFor(ExtendExt(locals, r), kind)
    ensures var x := SendExts(kind, ExtendExt(locals, r));
            if ReceivedByRemote(locals, kind, r) then |x| == 1 && SendExtFrom(locals, r, x[0]) else x == []
  {
    ExtendExtIs(locals, r);
    var e := ExtendExt(locals, r);
    if Shared(locals, r) {
      assert e[..0] == [];
      var k: nat :| FirstSame(locals, r, k) && e[0].sendId == locals[k].id && e[0].encrypt == locals[k].encrypt;
    }
  }

  // ----- feedback -----------------------------------------------------------------------------

  /** Whether the remote parameters keep a feedback entry: transport-cc needs the transport-wide-cc extension,
      and goog-remb the absolute send time without it. */
  predicate Survives(exts: seq<SendExt>, fb: Fb) {
    var transportCc := HasUri(exts, "http://www.ietf.org/id/draft-holmer-rmcat-transport-wide-cc-extensions-01");
    var absSendTime := HasUri(exts, "http://www.webrtc.org/experiments/rtp-hdrext/abs-send-time");
    && (fb.kind == "transport-cc" ==> transportCc)
    && (fb.kind == "goog-remb" ==> absSendTime && !transportCc)
  }

  function Survivors(exts: seq<SendExt>): Fb -> bool { fb => Survives(exts, fb) }

  lemma {:induction false} WithoutSelects(feedback: seq<Fb>, types: set<string>, p: Fb -> bool)
    requires forall fb :: p(fb) <==> fb.kind !in types
    ensures Without(feedback, types) == Select(feedback, p)
  {
    if feedback == [] {
    } else {
      WithoutSelects(feedback[1..], types, p);
    }
  }

  lemma SurvivesIffNotDropped(exts: seq<SendExt>, fb: Fb)
    ensures Survives(exts, fb) <==> fb.kind !in Dropped(exts)
  {
  }

  /** The remote feedback of a codec: of the local feedback, in order, exactly the entries that the sent
      extensions leave; each as often as the local side has it, or not at all. */
  lemma RemoteFeedbackIs(kind: string, e: Extended, i: nat, fb: Fb)
    requires AllGood(e.codecs) && DirectedFor(e.exts, kind) && i < |SendingRemote(kind, e).codecs|
    ensures var l, r := Sending(kind, e), SendingRemote(kind, e);
            && |l.codecs| == |r.codecs| && l.exts == r.exts
            && r.codecs[i].feedback == Select(l.codecs[i].feedback, Survivors(l.exts))
            && multiset(r.codecs[i].feedback)[fb] ==
                 if Survives(l.exts, fb) then multiset(l.codecs[i].feedback)[fb] else 0
  {
    CodecsAgree(kind, e.codecs);
    ExtsAgree(kind, e.exts);
    var l := Sending(kind, e);
    forall fb ensures Survivors(l.exts)(fb) <==> fb.kind !in Dropped(l.exts) {
      SurvivesIffNotDropped(l.exts, fb);
    }
    WithoutSelects(l.codecs[i].feedback, Dropped(l.exts), Survivors(l.exts));
    SelectCounts(l.codecs[i].feedback, Survivors(l.exts), fb);
  }

  // ----- receive capabilities -----------------------------------------------------------------

  /** Where the entry of extended codec `a` starts. */
  function EntryAt(codecs: seq<ExtCodec>, a: nat): nat
    requires AllGood(codecs) && a <= |codecs|
  {
    |RecvCodecs(codecs[..a])|
  }

  lemma {:induction false} LaterEntriesFollow(codecs: seq<ExtCodec>, a: nat, n: nat)
    requires AllGood(codecs) && a <= n <= |codecs|
    ensures RecvCodecs(codecs[..a]) <= RecvCodecs(codecs[..n])
  {
    if a == n {
    } else {
      var m := n - 1;
      LaterEntriesFollow(codecs, a, m);
      RecvCodecsNext(codecs, m);
      assert m + 1 == n;
    }
  }

  lemma PrefixHas(x: seq<Codec>, y: seq<Codec>, all: seq<Codec>)
    requires x + y <= all
    ensures |x| + |y| <= |all| && forall i :: 0 <= i < |y| ==> all[|x| + i] == y[i]
  {
    forall i | 0 <= i < |y| ensures all[|x| + i] == y[i] {
      assert (x + y)[|x| + i] == y[i];
    }
  }

  lemma EntryIsThere(codecs: seq<ExtCodec>, a: nat)
    requires AllGood(codecs) && a < |codecs|
    ensures var at, entry := EntryAt(codecs, a), RecvEntry(codecs[a]);
            && at + |entry| == EntryAt(codecs, a + 1) <= |RecvCodecs(codecs)|
            && forall i :: 0 <= i < |entry| ==> RecvCodecs(codecs)[at + i] == entry[i]
  {
    RecvCodecsNext(codecs, a);
    LaterEntriesFollow(codecs, a + 1, |codecs|);
    assert codecs[..|codecs|] == codecs;
    PrefixHas(RecvCodecs(codecs[..a]), RecvEntry(codecs[a]), RecvCodecs(codecs));
  }

  /** The parameters that are advertised and sent: those of the local codec but for the H264 profile. */
  ghost predicate LocalParameters(c: Codec, l: Codec) {
    if Lower(l.mimeType) == "video/h264"
    then c.parameters - {"profile-level-id"} == l.parameters - {"profile-level-id"}
    else c.parameters == l.parameters
  }

  /** The receive capabilities are put together entry by entry in remote order. The entry of a kept remote
      codec has the format and the parameters of its local partner, the remote payload type and the common
      feedback; an RTX codec with the remote RTX payload type follows if and only if there is one. */
  lemma RecvCodecFromGiven(local: Caps, remote: Caps, a: nat, h264: H264)
    requires Negotiates(local, remote, h264) && a < |ExtendedCaps(local, remote, h264).codecs|
    ensures var e := ExtendedCaps(local, remote, h264).codecs;
            && AllGood(e) && OriginOf(local, remote, a, h264).Some?
            && var (l, r) := OriginOf(local, remote, a, h264).value;
               EntryFrom(RecvCodecs(e), EntryAt(e, a), EntryAt(e, a + 1), e[a], l, r)
  {
    ExtendedIsGood(local, remote, h264);
    EntryIsThere(ExtendedCaps(local, remote, h264).codecs, a);
    EntryOf(local, remote, a, h264);
  }

  /** The local and the remote codec, as given, that extended codec `a` comes from. */
  ghost function OriginOf(local: Caps, remote: Caps, a: nat, h264: H264): Option<(Codec, Codec)>
  {
    var o := Origins(local.codecs, remote.codecs, |remote.codecs|, h264);
    if a < |o| && o[a] < |remote.codecs| && FindsPartner(local.codecs, remote.codecs, o[a], h264)
    then Some((local.codecs[Partner(local.codecs, remote.codecs, o[a], h264)], remote.codecs[o[a]])) else None
  }

  ghost predicate EntryFrom(codecs: seq<Codec>, at: nat, next: nat, e: ExtCodec, l: Codec, r: Codec) {
    && next == (if e.remoteRtxPt == None then at + 1 else at + 2) && next <= |codecs| && MediaFrom(codecs[at], l, r)
    && (e.remoteRtxPt != None ==> RtxFrom(codecs[at + 1], l, r.payloadType, e.remoteRtxPt))
  }

  ghost predicate MediaFrom(c: Codec, l: Codec, r: Codec) {
    && c.mimeType == l.mimeType && c.kind == l.kind && c.clockRate == l.clockRate && c.channels == l.channels
    && c.payloadType == r.payloadType && c.feedback == CommonFeedback(l.feedback, r.feedback)
    && LocalParameters(c, l)
  }

  /** The RTX codec for a media codec with payload type `pt`. */
  ghost predicate RtxFrom(c: Codec, l: Codec, pt: Option<int>, rtxPt: Option<int>) {
    && c.mimeType == l.kind + "/rtx" && c.kind == l.kind && c.clockRate == l.clockRate && c.channels == None
    && c.payloadType == rtxPt && pt.Some? && c.parameters == map["apt" := Int(pt.value % 256)] && c.feedback == []
  }

  lemma EntryOf(local: Caps, remote: Caps, a: nat, h264: H264)
    requires Negotiates(local, remote, h264) && a < |ExtendedCaps(local, remote, h264).codecs|
    ensures var e := ExtendedCaps(local, remote, h264).codecs[a];
            && OriginOf(local, remote, a, h264).Some? && Good(e)
            && var (l, r) := OriginOf(local, remote, a, h264).value;
               && MediaFrom(RecvEntry(e)[0], l, r)
               && (e.remoteRtxPt != None ==> RtxFrom(RecvEntry(e)[1], l, r.payloadType, e.remoteRtxPt))
  {
    ExtendedIsGood(local, remote, h264);
    ExtendedIsFrom(local, remote, a, h264);
    var e := ExtendedCaps(local, remote, h264).codecs[a];
    var (l, r) := OriginOf(local, remote, a, h264).value;
    EntryFields(e);
    assert MediaFrom(RecvEntry(e)[0], l, r);
  }

  lemma EntryFields(e: ExtCodec)
    requires Good(e)
    ensures RecvEntry(e)[0] ==
            Codec(e.mimeType, e.kind, e.remotePt, e.clockRate, e.channels, e.localParameters, e.feedback)
    ensures |RecvEntry(e)| == if e.remoteRtxPt == None then 1 else 2
    ensures e.remoteRtxPt != None ==>
              && e.remotePt.Some?
              && RecvEntry(e)[1] == Codec(e.kind + "/rtx", e.kind, e.remoteRtxPt, e.clockRate, None,
                                          map["apt" := Int(e.remotePt.value % 256)], [])
  {
  }

  // ----- sending parameters -------------------------------------------------------------------

  /** Extended codec `k` is the first of its kind. */
  predicate FirstOfKind(codecs: seq<ExtCodec>, kind: string, k: nat) {
    k < |codecs| && codecs[k].kind == kind && forall j :: 0 <= j < k ==> codecs[j].kind != kind
  }

  lemma {:induction false} SendCodecsOfFirst(kind: string, codecs: seq<ExtCodec>, k: nat)
    requires AllGood(codecs) && FirstOfKind(codecs, kind, k)
    ensures var e := codecs[k];
            var l, r := SendCodecs(kind, codecs), AnswerCodecs(kind, codecs);
            && |l| == |r| == (if e.localRtxPt == None then 1 else 2)
            && l[0] == Codec(e.mimeType, kind, e.localPt, e.clockRate, e.channels, e.localParameters, e.feedback)
            && r[0] == Codec(e.mimeType, kind, e.localPt, e.clockRate, e.channels, e.remoteParameters, e.feedback)
            && (e.localRtxPt != None ==>
                  e.localPt.Some? && l[1] == r[1] == Codec(kind + "/rtx", kind, e.localRtxPt, e.clockRate, None,
                                                            map["apt" := Int(e.localPt.value % 256)], []))
  {
    if k == 0 {
      assert Good(codecs[0]);
    } else {
      SendCodecsOfFirst(kind, codecs[1..], k - 1);
    }
  }

  /** The media codec of both sending sides, from the lists as given: it belongs to the first kept remote codec
      of the kind and has the format and the payload type of its local partner. The local side has the local
      parameters and the common feedback, the remote side the remote parameters. */
  lemma SendCodecFromGiven(kind: string, local: Caps, remote: Caps, k: nat, h264: H264)
    requires Sendable(kind, local, remote, h264) && FirstOfKind(ExtendedCaps(local, remote, h264).codecs, kind, k)
    ensures var e := ExtendedCaps(local, remote, h264);
            && AllGood(e.codecs) && OriginOf(local, remote, k, h264).Some?
            && SendCodecs(kind, e.codecs) != [] && AnswerCodecs(kind, e.codecs) != []
            && var (l, r) := OriginOf(local, remote, k, h264).value;
               SentFrom(SendCodecs(kind, e.codecs)[0], l, l, r) && SentFrom(AnswerCodecs(kind, e.codecs)[0], l, r, r)
  {
    ExtendedIsGood(local, remote, h264);
    ExtendedIsFrom(local, remote, k, h264);
    SendCodecsOfFirst(kind, ExtendedCaps(local, remote, h264).codecs, k);
  }

  /** The parameters are those of `own`. */
  ghost predicate SentFrom(c: Codec, l: Codec, own: Codec, r: Codec) {
    && c.mimeType == l.mimeType && c.kind == l.kind && c.payloadType == l.payloadType && c.clockRate == l.clockRate
    && c.channels == l.channels && c.feedback == CommonFeedback(l.feedback, r.feedback)
    && (if Lower(l.mimeType) == "video/h264"
        then c.parameters - {"profile-level-id"} == own.parameters - {"profile-level-id"}
        else c.parameters == own.parameters)
  }
}
