/**
  Capability negotiation of src/ortc.cpp: two validated capability sets become extended capabilities,
  and these become receive capabilities and sending parameters.

  Comparing H264 profiles is external code. It appears as a function value `h264` on what the code reads
  of the two codecs: no answer means no match, an answer is the profile-level-id to write into both
  codecs, or `None` to erase it. Every lemma holds for all such functions.
 */
module Ortc {
  import opened Text
  import opened Validators

  datatype Fb = Fb(kind: string, parameter: string)

  datatype Codec = Codec(
    mimeType: string, kind: string, payloadType: Option<int>, clockRate: int, channels: Option<int>,
    parameters: map<string, Json>, feedback: seq<Fb>)

  datatype HeaderExt = HeaderExt(kind: string, uri: string, id: int, encrypt: bool, direction: string)

  datatype Caps = Caps(codecs: seq<Codec>, exts: seq<HeaderExt>)

  /** What H264 comparison is given of a codec. */
  datatype H264Params = H264Params(asymmetry: nat, packetization: nat, profile: string)

  type H264 = (H264Params, H264Params) -> Option<Option<string>>

  predicate IsRtx(c: Codec) { IsRtxMime(c.mimeType) }

  /** What validation leaves of a codec. */
  predicate WellFormed(c: Codec) {
    MimeKind(c.mimeType) == Some(c.kind) && ValidParameters(c.parameters) && (c.channels.Some? <==> c.kind == "audio")
  }

  predicate AllWellFormed(codecs: seq<Codec>) { forall i :: 0 <= i < |codecs| ==> WellFormed(codecs[i]) }

  /** The code reads `apt` of every RTX codec unchecked. */
  predicate AptsPresent(codecs: seq<Codec>) {
    forall i :: 0 <= i < |codecs| && IsRtx(codecs[i]) ==> "apt" in codecs[i].parameters
  }

  // ----- matching ---------------------------------------------------------------------------

  /** The text of a signed integer, as `std::to_string` writes it. */
  function IntText(i: int): string { if i < 0 then "-" + Decimal(-i) else Decimal(i) }

  /** The machine's cast of a number to 32 bits: an integer wraps, a fraction is dropped; a floating-point
      number out of range has no defined result. */
  function Int32(j: Json): Option<int>
    requires j.Int? || j.Float?
  {
    if j.Int? then Some((j.i + 0x8000_0000) % 0x1_0000_0000 - 0x8000_0000)
    else
      var t := if j.r >= 0.0 then j.r.Floor else -(-j.r).Floor;
      if -0x8000_0000 <= t < 0x8000_0000 then Some(t) else None
  }

  /** A profile parameter as text; `None` when reading it throws, as on null, or has no defined result. */
  function ProfileText(p: map<string, Json>, key: string, absent: string): Option<string>
  {
    if key !in p then Some(absent)
    else match p[key]
      case Str(s) => Some(s)
      case Int(i) => Some(IntText(Int32(p[key]).value))
      case Float(r) => if Int32(p[key]).Some? then Some(IntText(Int32(p[key]).value)) else None
      case _ => None
  }

  /** `getVP9ProfileId`. */
  function Vp9Profile(c: Codec): Option<string> { ProfileText(c.parameters, "profile-id", "0") }

  /** `getH264ProfileLevelId`. */
  function H264Profile(c: Codec): Option<string> { ProfileText(c.parameters, "profile-level-id", "") }

  /** `getH264PacketizationMode` and `getH264LevelAssimetryAllowed`: an integer cut to 8 bits, or 0. */
  function SmallParameter(c: Codec, key: string): nat
  {
    if key in c.parameters && c.parameters[key].Int? then c.parameters[key].i % 256 else 0
  }

  function Packetization(c: Codec): nat { SmallParameter(c, "packetization-mode") }

  function H264ParamsOf(c: Codec): H264Params
    requires H264Profile(c).Some?
  {
    H264Params(SmallParameter(c, "level-asymmetry-allowed"), Packetization(c), H264Profile(c).value)
  }

  /** The part of `matchCodecs` that does not look at parameters. */
  predicate SameFormat(a: Codec, b: Codec) {
    Lower(a.mimeType) == Lower(b.mimeType) && a.clockRate == b.clockRate && a.channels == b.channels
  }

  predicate IsH264(c: Codec) { Lower(c.mimeType) == "video/h264" }
  predicate IsVp9(c: Codec) { Lower(c.mimeType) == "video/vp9" }

  /** The comparison throws: both codecs have the same format and a profile that is read is unreadable. */
  predicate Clash(a: Codec, b: Codec) {
    && SameFormat(a, b)
    && ((IsVp9(a) && (Vp9Profile(a).None? || Vp9Profile(b).None?))
        || (IsH264(a) && Packetization(a) == Packetization(b) && (H264Profile(a).None? || H264Profile(b).None?)))
  }

  /** `matchCodecs` with `strict` says yes. */
  predicate Matches(a: Codec, b: Codec, h264: H264) {
    && SameFormat(a, b) && !Clash(a, b)
    && (IsH264(a) ==> Packetization(a) == Packetization(b) && h264(H264ParamsOf(a), H264ParamsOf(b)).Some?)
    && (IsVp9(a) ==> Vp9Profile(a) == Vp9Profile(b))
  }

  /** Among codecs other than H264 matching is an equivalence on those whose profile can be read, and it joins
      only codecs of one MIME type, in any case, one clock rate and one channel count. VP9 codecs it joins
      exactly when these and their profiles agree. */
  lemma MatchIsEquivalence(a: Codec, b: Codec, c: Codec, h264: H264)
    requires Lower(a.mimeType) != "video/h264"
    ensures Matches(a, a, h264) <==> (Lower(a.mimeType) == "video/vp9" ==> Vp9Profile(a).Some?)
    ensures Matches(a, b, h264) ==> Matches(b, a, h264)
    ensures Matches(a, b, h264) && Matches(b, c, h264) ==> Matches(a, c, h264)
    ensures Matches(a, b, h264) ==>
              Lower(a.mimeType) == Lower(b.mimeType) && a.clockRate == b.clockRate && a.channels == b.channels
    ensures Lower(a.mimeType) == "video/vp9" && b == a.(parameters := b.parameters) ==>
              (Matches(a, b, h264) <==> Vp9Profile(a).Some? && Vp9Profile(a) == Vp9Profile(b))
  {
  }

  /** What counts as a VP9 profile: a text, or an integer written in decimal; without one it is 0. */
  lemma Vp9ProfileReads(c: Codec)
    ensures "profile-id" !in c.parameters ==> Vp9Profile(c) == Some("0")
    ensures "profile-id" in c.parameters && c.parameters["profile-id"].Str? ==>
              Vp9Profile(c) == Some(c.parameters["profile-id"].s)
    ensures "profile-id" in c.parameters && c.parameters["profile-id"].Int?
            && 0 <= c.parameters["profile-id"].i < 0x8000_0000 ==>
              Vp9Profile(c) == Some(Decimal(c.parameters["profile-id"].i))
    ensures "profile-id" in c.parameters && c.parameters["profile-id"].Null? ==> Vp9Profile(c) == None
  {
    if "profile-id" in c.parameters && c.parameters["profile-id"].Int? {
      FitsInt32(c.parameters["profile-id"].i);
    }
  }

  lemma FitsInt32(i: int)
    ensures -0x8000_0000 <= i < 0x8000_0000 ==> Int32(Int(i)) == Some(i)
  {
  }

  /** What is read of an H264 codec: integers cut to 8 bits, or 0, and a profile that may be empty. */
  lemma H264Reads(c: Codec, key: string)
    ensures key in c.parameters && c.parameters[key].Int? ==> SmallParameter(c, key) == c.parameters[key].i % 256
    ensures !(key in c.parameters && c.parameters[key].Int?) ==> SmallParameter(c, key) == 0
    ensures Packetization(c) == SmallParameter(c, "packetization-mode")
    ensures "profile-level-id" !in c.parameters ==>
              H264Profile(c) == Some("")
              && H264ParamsOf(c) == H264Params(SmallParameter(c, "level-asymmetry-allowed"), Packetization(c), "")
  {
  }

  function WithProfile(c: Codec, profile: Option<string>): Codec
  {
    c.(parameters := match profile
       case Some(id) => c.parameters["profile-level-id" := Str(id)]
       case None => c.parameters - {"profile-level-id"})
  }

  /** What a matching pair becomes with `modify`. */
  function Rewritten(a: Codec, b: Codec, h264: H264): (Codec, Codec)
    requires Matches(a, b, h264)
  {
    if IsH264(a) then
      var profile := h264(H264ParamsOf(a), H264ParamsOf(b)).value;
      (WithProfile(a, profile), WithProfile(b, profile))
    else (a, b)
  }

  /** Position of the first local codec at which the search ends, with a match or a throw, or the length. */
  function FirstStop(locals: seq<Codec>, remote: Codec, h264: H264): (k: nat)
    ensures k <= |locals|
    ensures k < |locals| ==> Matches(locals[k], remote, h264) || Clash(locals[k], remote)
    ensures forall i :: 0 <= i < k ==> !Matches(locals[i], remote, h264) && !Clash(locals[i], remote)
  {
    if locals == [] || Matches(locals[0], remote, h264) || Clash(locals[0], remote) then 0
    else 1 + FirstStop(locals[1..], remote, h264)
  }

  /** `reduceRtcpFeedback`. */
  function CommonFeedback(a: seq<Fb>, b: seq<Fb>): seq<Fb>
  {
    if a == [] then []
    else CommonFeedback(a[..|a| - 1], b) + if a[|a| - 1] in b then [a[|a| - 1]] else []
  }

  // ----- extended capabilities --------------------------------------------------------------

  datatype ExtCodec = ExtCodec(
    mimeType: string, kind: string, clockRate: int, channels: Option<int>,
    localPt: Option<int>, localRtxPt: Option<int>, remotePt: Option<int>, remoteRtxPt: Option<int>,
    localParameters: map<string, Json>, remoteParameters: map<string, Json>, feedback: seq<Fb>)

  /** An unknown remote direction leaves the direction unset. */
  datatype ExtExt = ExtExt(
    kind: string, uri: string, sendId: int, recvId: int, encrypt: bool, direction: Option<string>)

  datatype Extended = Extended(codecs: seq<ExtCodec>, exts: seq<ExtExt>)

  function Extend(local: Codec, remote: Codec): ExtCodec
  {
    ExtCodec(local.mimeType, local.kind, local.clockRate, local.channels, local.payloadType, None,
             remote.payloadType, None, local.parameters, remote.parameters,
             CommonFeedback(local.feedback, remote.feedback))
  }

  /** The local and the remote codecs as far as they have been rewritten, the codecs found, and whether a
      comparison threw, which ends the negotiation. */
  datatype Matching = Matching(locals: seq<Codec>, remotes: seq<Codec>, found: seq<ExtCodec>, threw: bool)

  /** One turn of the matching loop, on remote codec `i`. */
  function MatchOne(m: Matching, i: nat, h264: H264): Matching
    requires i < |m.remotes|
  {
    var remote := m.remotes[i];
    if m.threw || IsRtx(remote) then m
    else
      var k := FirstStop(m.locals, remote, h264);
      if k == |m.locals| then m
      else if Clash(m.locals[k], remote) then m.(threw := true)
      else
        var (l, r) := Rewritten(m.locals[k], remote, h264);
        Matching(m.locals[k := l], m.remotes[i := r], m.found + [Extend(l, r)], false)
  }

  /** The first `n` turns. */
  function MatchUpTo(locals: seq<Codec>, remotes: seq<Codec>, n: nat, h264: H264): (m: Matching)
    requires n <= |remotes|
    ensures |m.locals| == |locals| && |m.remotes| == |remotes|
  {
    if n == 0 then Matching(locals, remotes, [], false)
    else MatchOne(MatchUpTo(locals, remotes, n - 1, h264), n - 1, h264)
  }

  /** Position of the first RTX codec for payload type `pt`, or the length. */
  function FirstRtx(codecs: seq<Codec>, pt: Option<int>): (k: nat)
    requires AptsPresent(codecs)
    ensures k <= |codecs|
    ensures k < |codecs| ==> IsRtx(codecs[k]) && pt.Some? && codecs[k].parameters["apt"] == Int(pt.value)
    ensures forall i :: 0 <= i < k ==> !(IsRtx(codecs[i]) && pt.Some? && codecs[i].parameters["apt"] == Int(pt.value))
  {
    if codecs == [] || (IsRtx(codecs[0]) && pt.Some? && codecs[0].parameters["apt"] == Int(pt.value)) then 0
    else 1 + FirstRtx(codecs[1..], pt)
  }

  /** The RTX turn for one extended codec. */
  function WithRtx(e: ExtCodec, locals: seq<Codec>, remotes: seq<Codec>): ExtCodec
    requires AptsPresent(locals) && AptsPresent(remotes)
  {
    var l := FirstRtx(locals, e.localPt);
    if l == |locals| then e
    else
      var r := FirstRtx(remotes, e.remotePt);
      if r == |remotes| then e
      else e.(localRtxPt := locals[l].payloadType, remoteRtxPt := remotes[r].payloadType)
  }

  predicate KnownDirection(d: string) { d == "sendrecv" || d == "recvonly" || d == "sendonly" || d == "inactive" }

  /** The direction of an extension seen from the local side. */
  function Turned(d: string): Option<string>
  {
    if d == "recvonly" then Some("sendonly")
    else if d == "sendonly" then Some("recvonly")
    else if KnownDirection(d) then Some(d)
    else None
  }

  function FirstExt(exts: seq<HeaderExt>, remote: HeaderExt): (k: nat)
    ensures k <= |exts|
    ensures k < |exts| ==> exts[k].kind == remote.kind && exts[k].uri == remote.uri
    ensures forall i :: 0 <= i < k ==> !(exts[i].kind == remote.kind && exts[i].uri == remote.uri)
  {
    if exts == [] || (exts[0].kind == remote.kind && exts[0].uri == remote.uri) then 0
    else 1 + FirstExt(exts[1..], remote)
  }

  /** What a remote extension becomes: nothing if the local side does not have it. */
  function ExtendExt(locals: seq<HeaderExt>, remote: HeaderExt): seq<ExtExt>
  {
    var k := FirstExt(locals, remote);
    if k == |locals| then []
    else [ExtExt(remote.kind, remote.uri, locals[k].id, remote.id, locals[k].encrypt, Turned(remote.direction))]
  }

  function ExtendExts(locals: seq<HeaderExt>, remotes: seq<HeaderExt>): seq<ExtExt>
  {
    if remotes == [] then [] else ExtendExt(locals, remotes[0]) + ExtendExts(locals, remotes[1..])
  }

  /** What the code demands of its two capability sets beyond validation. */
  predicate Negotiable(local: Caps, remote: Caps) {
    && AllWellFormed(local.codecs) && AllWellFormed(remote.codecs)
    && AptsPresent(local.codecs) && AptsPresent(remote.codecs)
  }

  function FinalMatching(local: Caps, remote: Caps, h264: H264): Matching
  {
    MatchUpTo(local.codecs, remote.codecs, |remote.codecs|, h264)
  }

  /** The negotiation goes through. */
  predicate Negotiates(local: Caps, remote: Caps, h264: H264) {
    Negotiable(local, remote) && !FinalMatching(local, remote, h264).threw
  }

  /** `getExtendedRtpCapabilities` after validation, when nothing throws. */
  function ExtendedCaps(local: Caps, remote: Caps, h264: H264): Extended
    requires Negotiates(local, remote, h264)
  {
    var m := FinalMatching(local, remote, h264);
    RewritingKeepsRtx(local.codecs, remote.codecs, |remote.codecs|, h264);
    Extended(seq(|m.found|, i requires 0 <= i < |m.found| => WithRtx(m.found[i], m.locals, m.remotes)),
             ExtendExts(local.exts, remote.exts))
  }

  // ----- what rewriting leaves alone ----------------------------------------------------------

  /** Equal but for the H264 profile, and that is readable in both or in neither. */
  predicate SameButProfile(a: Codec, b: Codec) {
    if IsH264(a) then
      && b == a.(parameters := b.parameters)
      && a.parameters - {"profile-level-id"} == b.parameters - {"profile-level-id"}
      && (H264Profile(a).Some? <==> H264Profile(b).Some?)
    else a == b
  }

  lemma RewrittenIsProfileOnly(a: Codec, b: Codec, h264: H264)
    requires Matches(a, b, h264)
    ensures var (l, r) := Rewritten(a, b, h264); SameButProfile(a, l) && SameButProfile(b, r)
  {
    if IsH264(a) {
      var (l, r) := Rewritten(a, b, h264);
      assert l.parameters - {"profile-level-id"} == a.parameters - {"profile-level-id"};
      assert r.parameters - {"profile-level-id"} == b.parameters - {"profile-level-id"};
    }
  }

  lemma SameButProfileTransitive(a: Codec, b: Codec, c: Codec)
    requires SameButProfile(a, b) && SameButProfile(b, c)
    ensures SameButProfile(a, c)
  {
  }

  predicate AllSameButProfile(a: seq<Codec>, b: seq<Codec>) {
    |a| == |b| && forall i :: 0 <= i < |a| ==> SameButProfile(a[i], b[i])
  }

  lemma AllReflexive(a: seq<Codec>)
    ensures AllSameButProfile(a, a)
  {
  }

  lemma AllTransitive(a: seq<Codec>, b: seq<Codec>, c: seq<Codec>)
    requires AllSameButProfile(a, b) && AllSameButProfile(b, c)
    ensures AllSameButProfile(a, c)
  {
    forall i | 0 <= i < |a| ensures SameButProfile(a[i], c[i]) {
      SameButProfileTransitive(a[i], b[i], c[i]);
    }
  }

  /** What the turn of remote codec `i` may change. */
  predicate TurnRewrites(m: Matching, m': Matching, i: nat) {
    && AllSameButProfile(m.locals, m'.locals) && AllSameButProfile(m.remotes, m'.remotes)
    && (forall j :: 0 <= j < |m.remotes| && j != i ==> m'.remotes[j] == m.remotes[j])
  }

  lemma MatchOneRewrites(m: Matching, i: nat, h264: H264)
    requires i < |m.remotes|
    ensures TurnRewrites(m, MatchOne(m, i, h264), i)
  {
    var k := FirstStop(m.locals, m.remotes[i], h264);
    if !m.threw && !IsRtx(m.remotes[i]) && k < |m.locals| && !Clash(m.locals[k], m.remotes[i]) {
      RewrittenIsProfileOnly(m.locals[k], m.remotes[i], h264);
    }
  }

  predicate ProfileOnly(locals: seq<Codec>, remotes: seq<Codec>, m: Matching, n: nat) {
    && AllSameButProfile(locals, m.locals) && AllSameButProfile(remotes, m.remotes)
    && (forall i :: n <= i < |remotes| ==> m.remotes[i] == remotes[i])
  }

  lemma RewritingNext(locals: seq<Codec>, remotes: seq<Codec>, m: Matching, m': Matching, i: nat)
    requires ProfileOnly(locals, remotes, m, i) && TurnRewrites(m, m', i)
    ensures ProfileOnly(locals, remotes, m', i + 1)
  {
    AllTransitive(locals, m.locals, m'.locals);
    AllTransitive(remotes, m.remotes, m'.remotes);
  }

  /** Matching rewrites nothing but H264 profiles, and no remote codec before its turn. */
  lemma {:induction false} RewritingIsProfileOnly(locals: seq<Codec>, remotes: seq<Codec>, n: nat, h264: H264)
    requires n <= |remotes|
    ensures ProfileOnly(locals, remotes, MatchUpTo(locals, remotes, n, h264), n)
  {
    if n == 0 {
      NothingRewritten(locals, remotes, h264);
    } else {
      var i := n - 1;
      RewritingIsProfileOnly(locals, remotes, i, h264);
      RewritingGoesOn(locals, remotes, i, h264);
      assert i + 1 == n;
    }
  }

  lemma NothingRewritten(locals: seq<Codec>, remotes: seq<Codec>, h264: H264)
    ensures ProfileOnly(locals, remotes, MatchUpTo(locals, remotes, 0, h264), 0)
  {
    AllReflexive(locals);
    AllReflexive(remotes);
  }

  lemma RewritingGoesOn(locals: seq<Codec>, remotes: seq<Codec>, i: nat, h264: H264)
    requires i < |remotes| && ProfileOnly(locals, remotes, MatchUpTo(locals, remotes, i, h264), i)
    ensures ProfileOnly(locals, remotes, MatchUpTo(locals, remotes, i + 1, h264), i + 1)
  {
    TurnRewritesAt(locals, remotes, i, h264);
    RewritingNext(locals, remotes, MatchUpTo(locals, remotes, i, h264), MatchUpTo(locals, remotes, i + 1, h264), i);
  }

  lemma TurnRewritesAt(locals: seq<Codec>, remotes: seq<Codec>, i: nat, h264: H264)
    requires i < |remotes|
    ensures TurnRewrites(MatchUpTo(locals, remotes, i, h264), MatchUpTo(locals, remotes, i + 1, h264), i)
  {
    MatchOneRewrites(MatchUpTo(locals, remotes, i, h264), i, h264);
  }

  lemma AptsAfter(a: seq<Codec>, b: seq<Codec>)
    requires AllSameButProfile(a, b) && AptsPresent(a)
    ensures AptsPresent(b)
  {
    forall i | 0 <= i < |b| && IsRtx(b[i]) ensures "apt" in b[i].parameters {
      assert SameButProfile(a[i], b[i]);
    }
  }

  lemma RewritingKeepsRtx(locals: seq<Codec>, remotes: seq<Codec>, n: nat, h264: H264)
    requires n <= |remotes| && AptsPresent(locals) && AptsPresent(remotes)
    ensures var m := MatchUpTo(locals, remotes, n, h264); AptsPresent(m.locals) && AptsPresent(m.remotes)
  {
    RewritingIsProfileOnly(locals, remotes, n, h264);
    var m := MatchUpTo(locals, remotes, n, h264);
    AptsAfter(locals, m.locals);
    AptsAfter(remotes, m.remotes);
  }

  // ----- when the negotiation throws ------------------------------------------------------------

  /** Rewriting changes no packetization mode and makes no profile readable or unreadable. */
  lemma ClashStays(a: Codec, b: Codec, remote: Codec)
    requires SameButProfile(a, b)
    ensures Clash(a, remote) <==> Clash(b, remote)
  {
    if IsH264(a) {
      PacketizationStays(a, b);
    }
  }

  lemma PacketizationStays(a: Codec, b: Codec)
    requires a.parameters - {"profile-level-id"} == b.parameters - {"profile-level-id"}
    ensures Packetization(a) == Packetization(b)
  {
    var p, q := a.parameters - {"profile-level-id"}, b.parameters - {"profile-level-id"};
    var key := "packetization-mode";
    assert key in a.parameters <==> key in p;
    assert key in b.parameters <==> key in q;
    assert key in p ==> a.parameters[key] == p[key] && b.parameters[key] == q[key];
  }

  /** The search in `now` comes to a comparison that throws before it comes to a match. */
  ghost predicate SearchThrows(now: seq<Codec>, remote: Codec, h264: H264) {
    exists k :: 0 <= k < |now| && Clash(now[k], remote) && NoneMatches(now[..k], remote, h264)
  }

  predicate NoneMatches(now: seq<Codec>, remote: Codec, h264: H264) {
    forall j :: 0 <= j < |now| ==> !Matches(now[j], remote, h264)
  }

  lemma SearchThrowsIff(now: seq<Codec>, remote: Codec, h264: H264)
    ensures var k := FirstStop(now, remote, h264);
            k < |now| && Clash(now[k], remote) <==> SearchThrows(now, remote, h264)
  {
    var stop := FirstStop(now, remote, h264);
    if stop < |now| && Clash(now[stop], remote) {
      assert NoneMatches(now[..stop], remote, h264);
    }
    if k :| 0 <= k < |now| && Clash(now[k], remote) && NoneMatches(now[..k], remote, h264) {
      assert stop <= k;
      assert stop < k ==> now[..k][stop] == now[stop];
    }
  }

  /** The turn of remote codec `i` throws: some local codec's comparison with it throws, and none of the
      local codecs before that one, as they are by then, matches. */
  ghost predicate TurnThrows(locals: seq<Codec>, remotes: seq<Codec>, i: nat, h264: H264)
    requires i < |remotes|
  {
    !IsRtx(remotes[i]) && SearchThrows(MatchUpTo(locals, remotes, i, h264).locals, remotes[i], h264)
  }

  lemma TurnThrowsIff(locals: seq<Codec>, remotes: seq<Codec>, i: nat, h264: H264)
    requires i < |remotes| && !MatchUpTo(locals, remotes, i, h264).threw
    ensures MatchUpTo(locals, remotes, i + 1, h264).threw <==> TurnThrows(locals, remotes, i, h264)
  {
    var m := MatchUpTo(locals, remotes, i, h264);
    RewritingIsProfileOnly(locals, remotes, i, h264);
    SearchThrowsIff(m.locals, remotes[i], h264);
    assert MatchUpTo(locals, remotes, i + 1, h264) == MatchOne(m, i, h264);
  }

  ghost predicate SomeTurnThrows(locals: seq<Codec>, remotes: seq<Codec>, n: nat, h264: H264)
    requires n <= |remotes|
  {
    exists i :: 0 <= i < n && TurnThrows(locals, remotes, i, h264)
  }

  lemma SomeTurnNext(locals: seq<Codec>, remotes: seq<Codec>, n: nat, h264: H264)
    requires n < |remotes|
    ensures SomeTurnThrows(locals, remotes, n + 1, h264) <==>
            SomeTurnThrows(locals, remotes, n, h264) || TurnThrows(locals, remotes, n, h264)
  {
    if i :| 0 <= i < n + 1 && TurnThrows(locals, remotes, i, h264) {
      assert i < n || i == n;
    }
  }

  lemma ThrewNext(locals: seq<Codec>, remotes: seq<Codec>, n: nat, h264: H264)
    requires n < |remotes|
    ensures MatchUpTo(locals, remotes, n + 1, h264).threw <==>
            MatchUpTo(locals, remotes, n, h264).threw || TurnThrows(locals, remotes, n, h264)
  {
    if !MatchUpTo(locals, remotes, n, h264).threw {
      TurnThrowsIff(locals, remotes, n, h264);
    }
  }

  /** The negotiation throws exactly when some turn throws. */
  lemma {:induction false} ThrowsIff(locals: seq<Codec>, remotes: seq<Codec>, n: nat, h264: H264)
    requires n <= |remotes|
    ensures MatchUpTo(locals, remotes, n, h264).threw <==> SomeTurnThrows(locals, remotes, n, h264)
  {
    if n == 0 {
    } else {
      calc {
        MatchUpTo(locals, remotes, n, h264).threw;
        { ThrewNext(locals, remotes, n - 1, h264); }
        MatchUpTo(locals, remotes, n - 1, h264).threw || TurnThrows(locals, remotes, n - 1, h264);
        { ThrowsIff(locals, remotes, n - 1, h264); }
        SomeTurnThrows(locals, remotes, n - 1, h264) || TurnThrows(locals, remotes, n - 1, h264);
        { SomeTurnNext(locals, remotes, n - 1, h264); }
        SomeTurnThrows(locals, remotes, n, h264);
      }
    }
  }

  /** No H264 profile that would be read is unreadable. */
  predicate H264Readable(locals: seq<Codec>, remotes: seq<Codec>) {
    forall i, k :: 0 <= i < |remotes| && 0 <= k < |locals| && Clash(locals[k], remotes[i]) ==> !IsH264(remotes[i])
  }

  /** Which local codecs throw does not depend on the earlier turns. For a codec other than H264, which
      match does not either. */
  lemma TurnThrowsIffGiven(locals: seq<Codec>, remotes: seq<Codec>, i: nat, h264: H264)
    requires i < |remotes| && H264Readable(locals, remotes)
    ensures SearchThrows(MatchUpTo(locals, remotes, i, h264).locals, remotes[i], h264) <==>
            SearchThrows(locals, remotes[i], h264)
  {
    RewritingIsProfileOnly(locals, remotes, i, h264);
    var now := MatchUpTo(locals, remotes, i, h264).locals;
    forall k | 0 <= k < |locals| ensures Clash(locals[k], remotes[i]) <==> Clash(now[k], remotes[i]) {
      ClashStays(locals[k], now[k], remotes[i]);
    }
    if !IsH264(remotes[i]) {
      MatchesStays(locals, remotes, i, h264);
      SameSearch(locals, now, remotes[i], h264);
    }
  }

  lemma SameSearch(a: seq<Codec>, b: seq<Codec>, remote: Codec, h264: H264)
    requires |a| == |b|
    requires forall k :: 0 <= k < |a| ==> (Clash(a[k], remote) <==> Clash(b[k], remote))
    requires forall k :: 0 <= k < |a| ==> (Matches(b[k], remote, h264) <==> Matches(a[k], remote, h264))
    ensures SearchThrows(a, remote, h264) <==> SearchThrows(b, remote, h264)
  {
    assert forall k :: 0 <= k < |a| ==>
      (NoneMatches(a[..k], remote, h264) <==> NoneMatches(b[..k], remote, h264));
  }

  /** Where the H264 profiles are readable the lists as given tell: the negotiation throws exactly when
      some remote codec comes to an unreadable VP9 profile, its own or a local one, before a match. */
  lemma ThrowsIffGiven(local: Caps, remote: Caps, h264: H264)
    requires H264Readable(local.codecs, remote.codecs)
    ensures FinalMatching(local, remote, h264).threw <==>
            exists i :: 0 <= i < |remote.codecs| && !IsRtx(remote.codecs[i])
                        && SearchThrows(local.codecs, remote.codecs[i], h264)
  {
    var n := |remote.codecs|;
    ThrowsIff(local.codecs, remote.codecs, n, h264);
    forall i | 0 <= i < n
      ensures TurnThrows(local.codecs, remote.codecs, i, h264) <==>
              !IsRtx(remote.codecs[i]) && SearchThrows(local.codecs, remote.codecs[i], h264)
    {
      TurnThrowsIffGiven(local.codecs, remote.codecs, i, h264);
    }
  }

  // Whatever H264 profiles say, the lists as given bound the throws from both sides: by the comparison that
  // makes every two profiles match and by the one that makes none match.

  function Always(a: H264Params, b: H264Params): Option<Option<string>> { Some(None) }

  function Never(a: H264Params, b: H264Params): Option<Option<string>> { None }

  ghost predicate SomeSearchThrows(locals: seq<Codec>, remotes: seq<Codec>, h264: H264) {
    exists i :: 0 <= i < |remotes| && !IsRtx(remotes[i]) && SearchThrows(locals, remotes[i], h264)
  }

  lemma SearchThrowsBetween(now: seq<Codec>, remote: Codec, h264: H264)
    ensures SearchThrows(now, remote, Always) ==> SearchThrows(now, remote, h264)
    ensures SearchThrows(now, remote, h264) ==> SearchThrows(now, remote, Never)
  {
    if k :| 0 <= k < |now| && Clash(now[k], remote) && NoneMatches(now[..k], remote, Always) {
      assert NoneMatches(now[..k], remote, h264);
    }
    if k :| 0 <= k < |now| && Clash(now[k], remote) && NoneMatches(now[..k], remote, h264) {
      assert NoneMatches(now[..k], remote, Never);
    }
  }

  /** A comparison that does not look at its arguments is not affected by rewriting. */
  lemma BlindMatchStays(a: Codec, b: Codec, remote: Codec)
    requires SameButProfile(a, b)
    ensures Matches(a, remote, Always) <==> Matches(b, remote, Always)
    ensures Matches(a, remote, Never) <==> Matches(b, remote, Never)
  {
    ClashStays(a, b, remote);
    if IsH264(a) {
      PacketizationStays(a, b);
    }
  }

  /** A search of the rewritten lists by such a comparison throws as a search of the lists as given. */
  lemma BlindSearchStays(locals: seq<Codec>, remotes: seq<Codec>, i: nat, h264: H264)
    requires i < |remotes|
    ensures var now := MatchUpTo(locals, remotes, i, h264).locals;
            && (SearchThrows(locals, remotes[i], Always) <==> SearchThrows(now, remotes[i], Always))
            && (SearchThrows(locals, remotes[i], Never) <==> SearchThrows(now, remotes[i], Never))
  {
    RewritingIsProfileOnly(locals, remotes, i, h264);
    var now := MatchUpTo(locals, remotes, i, h264).locals;
    forall k | 0 <= k < |locals|
      ensures Clash(locals[k], remotes[i]) <==> Clash(now[k], remotes[i])
      ensures Matches(locals[k], remotes[i], Always) <==> Matches(now[k], remotes[i], Always)
      ensures Matches(locals[k], remotes[i], Never) <==> Matches(now[k], remotes[i], Never)
    {
      ClashStays(locals[k], now[k], remotes[i]);
      BlindMatchStays(locals[k], now[k], remotes[i]);
    }
    SameSearch(locals, now, remotes[i], Always);
    SameSearch(locals, now, remotes[i], Never);
  }

  /** With no condition on the profiles: the negotiation throws if some remote codec comes to an unreadable
      profile before any codec it could match, and only if some remote codec comes to one before any codec
      it matches whatever the comparison says. */
  lemma ThrowsBetween(local: Caps, remote: Caps, h264: H264)
    ensures SomeSearchThrows(local.codecs, remote.codecs, Always) ==> FinalMatching(local, remote, h264).threw
    ensures FinalMatching(local, remote, h264).threw ==> SomeSearchThrows(local.codecs, remote.codecs, Never)
  {
    ThrowsIff(local.codecs, remote.codecs, |remote.codecs|, h264);
    if i :| 0 <= i < |remote.codecs| && !IsRtx(remote.codecs[i])
            && SearchThrows(local.codecs, remote.codecs[i], Always) {
      BlindSearchStays(local.codecs, remote.codecs, i, h264);
      SearchThrowsBetween(MatchUpTo(local.codecs, remote.codecs, i, h264).locals, remote.codecs[i], h264);
      assert TurnThrows(local.codecs, remote.codecs, i, h264);
    }
    if i :| 0 <= i < |remote.codecs| && TurnThrows(local.codecs, remote.codecs, i, h264) {
      BlindSearchStays(local.codecs, remote.codecs, i, h264);
      SearchThrowsBetween(MatchUpTo(local.codecs, remote.codecs, i, h264).locals, remote.codecs[i], h264);
    }
  }

  /** Neither bound can be improved: the first says exactly when every comparison of profiles throws, the
      second exactly when some comparison does. */
  lemma ThrowsForEveryIff(local: Caps, remote: Caps)
    ensures (forall h264: H264 :: FinalMatching(local, remote, h264).threw) <==>
            SomeSearchThrows(local.codecs, remote.codecs, Always)
    ensures (exists h264: H264 :: FinalMatching(local, remote, h264).threw) <==>
            SomeSearchThrows(local.codecs, remote.codecs, Never)
  {
    forall h264: H264
      ensures SomeSearchThrows(local.codecs, remote.codecs, Always) ==> FinalMatching(local, remote, h264).threw
      ensures FinalMatching(local, remote, h264).threw ==> SomeSearchThrows(local.codecs, remote.codecs, Never)
    {
      ThrowsBetween(local, remote, h264);
    }
    BlindThrowsIff(local, remote);
  }

  lemma BlindThrowsIff(local: Caps, remote: Caps)
    ensures FinalMatching(local, remote, Always).threw <==> SomeSearchThrows(local.codecs, remote.codecs, Always)
    ensures FinalMatching(local, remote, Never).threw <==> SomeSearchThrows(local.codecs, remote.codecs, Never)
  {
    var n := |remote.codecs|;
    ThrowsIff(local.codecs, remote.codecs, n, Always);
    ThrowsIff(local.codecs, remote.codecs, n, Never);
    forall i | 0 <= i < n
      ensures TurnThrows(local.codecs, remote.codecs, i, Always) <==>
              !IsRtx(remote.codecs[i]) && SearchThrows(local.codecs, remote.codecs[i], Always)
      ensures TurnThrows(local.codecs, remote.codecs, i, Never) <==>
              !IsRtx(remote.codecs[i]) && SearchThrows(local.codecs, remote.codecs[i], Never)
    {
      BlindSearchStays(local.codecs, remote.codecs, i, Always);
      BlindSearchStays(local.codecs, remote.codecs, i, Never);
    }
  }

  /** For a codec other than H264 the local codecs match later as they did at first. */
  lemma MatchesStays(locals: seq<Codec>, remotes: seq<Codec>, i: nat, h264: H264)
    requires i < |remotes| && !IsH264(remotes[i])
    ensures var now := MatchUpTo(locals, remotes, i, h264).locals;
            forall j :: 0 <= j < |locals| ==>
              (Matches(now[j], remotes[i], h264) <==> Matches(locals[j], remotes[i], h264))
  {
    RewritingIsProfileOnly(locals, remotes, i, h264);
    var now := MatchUpTo(locals, remotes, i, h264).locals;
    forall j | 0 <= j < |locals| ensures Matches(now[j], remotes[i], h264) <==> Matches(locals[j], remotes[i], h264) {
      assert SameButProfile(locals[j], now[j]);
    }
  }

  lemma {:induction false} ThrewStays(locals: seq<Codec>, remotes: seq<Codec>, i: nat, n: nat, h264: H264)
    requires i <= n <= |remotes| && !MatchUpTo(locals, remotes, n, h264).threw
    ensures !MatchUpTo(locals, remotes, i, h264).threw
  {
    if i == n {
    } else {
      ThrewStays(locals, remotes, i, n - 1, h264);
    }
  }

  // ----- which codecs are kept ----------------------------------------------------------------

  /** Remote codec `i` finds a local partner when its turn comes. */
  ghost predicate Kept(locals: seq<Codec>, remotes: seq<Codec>, i: nat, h264: H264)
    requires i < |remotes|
  {
    !IsRtx(remotes[i]) &&
    exists k :: 0 <= k < |locals| && Matches(MatchUpTo(locals, remotes, i, h264).locals[k], remotes[i], h264)
  }

  /** The kept remote codecs among the first `n`, by position. */
  ghost function Origins(locals: seq<Codec>, remotes: seq<Codec>, n: nat, h264: H264): seq<nat>
    requires n <= |remotes|
  {
    if n == 0 then []
    else Origins(locals, remotes, n - 1, h264) + if Kept(locals, remotes, n - 1, h264) then [n - 1] else []
  }

  /** The position of the local codec that remote codec `i` is paired with. */
  ghost function Partner(locals: seq<Codec>, remotes: seq<Codec>, i: nat, h264: H264): (k: nat)
    requires i < |remotes|
    ensures k <= |locals|
  {
    FirstStop(MatchUpTo(locals, remotes, i, h264).locals, remotes[i], h264)
  }

  /** The extended codec that comes from remote codec `i`: its partner as it is by then, both rewritten. */
  ghost function Found(locals: seq<Codec>, remotes: seq<Codec>, i: nat, h264: H264): ExtCodec
    requires i < |remotes| && FindsPartner(locals, remotes, i, h264)
  {
    var now := MatchUpTo(locals, remotes, i, h264).locals;
    var (l, r) := Rewritten(now[Partner(locals, remotes, i, h264)], remotes[i], h264);
    Extend(l, r)
  }

  ghost predicate FindsPartner(locals: seq<Codec>, remotes: seq<Codec>, i: nat, h264: H264)
    requires i < |remotes|
  {
    var k := Partner(locals, remotes, i, h264);
    !IsRtx(remotes[i]) && k < |locals| && Matches(MatchUpTo(locals, remotes, i, h264).locals[k], remotes[i], h264)
  }

  predicate IncreasingBelow(o: seq<nat>, n: nat) {
    (forall a, b :: 0 <= a < b < |o| ==> o[a] < o[b]) && forall a :: 0 <= a < |o| ==> o[a] < n
  }

  lemma {:induction false} OriginsIncrease(locals: seq<Codec>, remotes: seq<Codec>, n: nat, h264: H264)
    requires n <= |remotes|
    ensures IncreasingBelow(Origins(locals, remotes, n, h264), n)
  {
    if n == 0 {
    } else {
      OriginsIncrease(locals, remotes, n - 1, h264);
      assert IncreasingBelow(Origins(locals, remotes, n - 1, h264), n - 1);
    }
  }

  lemma {:induction false} OriginsAreKept(locals: seq<Codec>, remotes: seq<Codec>, n: nat, i: nat, h264: H264)
    requires i < n <= |remotes|
    ensures i in Origins(locals, remotes, n, h264) <==> Kept(locals, remotes, i, h264)
  {
    if i < n - 1 {
      OriginsAreKept(locals, remotes, n - 1, i, h264);
    } else {
      OriginsIncrease(locals, remotes, n - 1, h264);
    }
  }

  /** A turn that does not throw finds a partner exactly when there is one. */
  lemma FoundNext(locals: seq<Codec>, remotes: seq<Codec>, i: nat, h264: H264)
    requires i < |remotes| && !MatchUpTo(locals, remotes, i + 1, h264).threw
    ensures Kept(locals, remotes, i, h264) <==> FindsPartner(locals, remotes, i, h264)
    ensures MatchUpTo(locals, remotes, i + 1, h264).found ==
            MatchUpTo(locals, remotes, i, h264).found +
            if FindsPartner(locals, remotes, i, h264) then [Found(locals, remotes, i, h264)] else []
  {
    RewritingIsProfileOnly(locals, remotes, i, h264);
    var m := MatchUpTo(locals, remotes, i, h264);
    assert m.remotes[i] == remotes[i];
    assert MatchUpTo(locals, remotes, i + 1, h264) == MatchOne(m, i, h264);
  }

  ghost predicate FoundAt(locals: seq<Codec>, remotes: seq<Codec>, i: nat, e: ExtCodec, h264: H264) {
    i < |remotes| && FindsPartner(locals, remotes, i, h264) && e == Found(locals, remotes, i, h264)
  }

  lemma {:induction false} FoundInOrder(locals: seq<Codec>, remotes: seq<Codec>, n: nat, h264: H264)
    requires n <= |remotes| && !MatchUpTo(locals, remotes, n, h264).threw
    ensures var o := Origins(locals, remotes, n, h264);
            var found := MatchUpTo(locals, remotes, n, h264).found;
            |found| == |o| && forall a :: 0 <= a < |o| ==> FoundAt(locals, remotes, o[a], found[a], h264)
  {
    if n == 0 {
    } else {
      ThrewStays(locals, remotes, n - 1, n, h264);
      FoundInOrder(locals, remotes, n - 1, h264);
      FoundNext(locals, remotes, n - 1, h264);
    }
  }

  /** For a codec other than H264 the earlier turns do not matter: it is kept exactly when it is not RTX
      and matches some local codec as given. */
  lemma KeptIffMatchesGiven(locals: seq<Codec>, remotes: seq<Codec>, i: nat, h264: H264)
    requires i < |remotes| && !IsH264(remotes[i])
    ensures Kept(locals, remotes, i, h264) <==>
            !IsRtx(remotes[i]) && exists k :: 0 <= k < |locals| && Matches(locals[k], remotes[i], h264)
  {
    MatchesStays(locals, remotes, i, h264);
  }

  /** The reduced feedback: an order-preserving selection of the local entries, holding exactly those the
      remote side has too. */
  lemma {:induction false} CommonFeedbackIsIntersection(a: seq<Fb>, b: seq<Fb>, fb: Fb)
    ensures multiset(CommonFeedback(a, b))[fb] == if fb in b then multiset(a)[fb] else 0
  {
    if a == [] {
    } else {
      assert a == a[..|a| - 1] + [a[|a| - 1]];
      CommonFeedbackIsIntersection(a[..|a| - 1], b, fb);
    }
  }

  lemma {:induction false} CommonFeedbackInOrder(a: seq<Fb>, a': seq<Fb>, b: seq<Fb>)
    ensures CommonFeedback(a + a', b) == CommonFeedback(a, b) + CommonFeedback(a', b)
  {
    if a' == [] {
      assert a + a' == a;
    } else {
      var front, x := a'[..|a'| - 1], a'[|a'| - 1];
      assert (a + a')[..|a + a'| - 1] == a + front;
      CommonFeedbackInOrder(a, front, b);
    }
  }

  // ----- RTX pairing --------------------------------------------------------------------------

  predicate Numbered(codecs: seq<Codec>) { forall i :: 0 <= i < |codecs| ==> codecs[i].payloadType.Some? }

  /** Rewriting leaves RTX codecs alone, so the search finds the same ones in the lists as given. */
  lemma {:induction false} FirstRtxStays(a: seq<Codec>, b: seq<Codec>, pt: Option<int>)
    requires AptsPresent(a) && AptsPresent(b) && AllSameButProfile(a, b)
    ensures FirstRtx(a, pt) == FirstRtx(b, pt)
    ensures var k := FirstRtx(a, pt); k < |a| ==> a[k] == b[k]
  {
    if a == [] {
    } else {
      assert SameButProfile(a[0], b[0]);
      FirstRtxStays(a[1..], b[1..], pt);
    }
  }

  /** The two RTX payload types of an extended codec by the lists as given: those of the first RTX codecs
      for its local and its remote payload type if both sides have one, and none otherwise. */
  predicate HasRtxOf(e: ExtCodec, local: seq<Codec>, remote: seq<Codec>)
    requires AptsPresent(local) && AptsPresent(remote)
  {
    var l, r := FirstRtx(local, e.localPt), FirstRtx(remote, e.remotePt);
    if l < |local| && r < |remote|
    then e.localRtxPt == local[l].payloadType && e.remoteRtxPt == remote[r].payloadType
    else e.localRtxPt == None && e.remoteRtxPt == None
  }

  lemma WithRtxIsOfGiven(e: ExtCodec, local: Caps, remote: Caps, h264: H264)
    requires Negotiable(local, remote) && e.localRtxPt == None && e.remoteRtxPt == None
    ensures var m := FinalMatching(local, remote, h264);
            AptsPresent(m.locals) && AptsPresent(m.remotes) &&
            HasRtxOf(WithRtx(e, m.locals, m.remotes), local.codecs, remote.codecs)
  {
    var m := FinalMatching(local, remote, h264);
    RewritingKeepsRtx(local.codecs, remote.codecs, |remote.codecs|, h264);
    RewritingIsProfileOnly(local.codecs, remote.codecs, |remote.codecs|, h264);
    FirstRtxStays(local.codecs, m.locals, e.localPt);
    FirstRtxStays(remote.codecs, m.remotes, e.remotePt);
  }

  /** Extended codec `e` comes from remote codec `i`: it is that codec with its partner, its feedback is
      what both codecs as given have, and its RTX types are those of the lists as given. */
  ghost predicate ExtendedFrom(local: Caps, remote: Caps, i: nat, e: ExtCodec, h264: H264)
    requires Negotiable(local, remote)
  {
    && i < |remote.codecs| && FindsPartner(local.codecs, remote.codecs, i, h264)
    && var l := local.codecs[Partner(local.codecs, remote.codecs, i, h264)];
       && e.(localRtxPt := None, remoteRtxPt := None) == Found(local.codecs, remote.codecs, i, h264)
       && e.mimeType == l.mimeType && e.kind == l.kind && e.clockRate == l.clockRate && e.channels == l.channels
       && e.localPt == l.payloadType && e.remotePt == remote.codecs[i].payloadType
       && e.feedback == CommonFeedback(l.feedback, remote.codecs[i].feedback)
       && HasRtxOf(e, local.codecs, remote.codecs)
       && ParametersOf(e, l, PartnerNow(local.codecs, remote.codecs, i, h264), remote.codecs[i], h264)
  }

  /** The partner as earlier matches have left it. */
  ghost function PartnerNow(locals: seq<Codec>, remotes: seq<Codec>, i: nat, h264: H264): Codec
    requires i < |remotes| && FindsPartner(locals, remotes, i, h264)
  {
    MatchUpTo(locals, remotes, i, h264).locals[Partner(locals, remotes, i, h264)]
  }

  /** Each side keeps its own parameters; those of H264 codecs hold the profile that the comparison answered,
      on both sides, or none on either. */
  ghost predicate ParametersOf(e: ExtCodec, l: Codec, now: Codec, r: Codec, h264: H264)
    requires Matches(now, r, h264)
  {
    if Lower(l.mimeType) != "video/h264" then e.localParameters == l.parameters && e.remoteParameters == r.parameters
    else
      var key := "profile-level-id";
      && e.localParameters - {key} == l.parameters - {key} && e.remoteParameters - {key} == r.parameters - {key}
      && IsH264(now)
      && match h264(H264ParamsOf(now), H264ParamsOf(r)).value
         case Some(id) => && key in e.localParameters && e.localParameters[key] == Str(id)
                          && key in e.remoteParameters && e.remoteParameters[key] == Str(id)
         case None => key !in e.localParameters && key !in e.remoteParameters
  }

  lemma FoundKeepsParameters(local: Caps, remote: Caps, i: nat, h264: H264)
    requires i < |remote.codecs| && FindsPartner(local.codecs, remote.codecs, i, h264)
    ensures ParametersOf(Found(local.codecs, remote.codecs, i, h264),
                         local.codecs[Partner(local.codecs, remote.codecs, i, h264)],
                         PartnerNow(local.codecs, remote.codecs, i, h264), remote.codecs[i], h264)
  {
    RewritingIsProfileOnly(local.codecs, remote.codecs, i, h264);
    var k := Partner(local.codecs, remote.codecs, i, h264);
    var l, now, r := local.codecs[k], PartnerNow(local.codecs, remote.codecs, i, h264), remote.codecs[i];
    assert SameButProfile(l, now);
    RewrittenParameters(l, now, r, h264);
  }

  lemma RewrittenParameters(l: Codec, now: Codec, r: Codec, h264: H264)
    requires SameButProfile(l, now) && Matches(now, r, h264)
    ensures var (a, b) := Rewritten(now, r, h264); ParametersOf(Extend(a, b), l, now, r, h264)
  {
    if IsH264(now) {
      RewrittenIsProfileOnly(now, r, h264);
    }
  }

  lemma FoundIsOfGiven(local: Caps, remote: Caps, i: nat, h264: H264)
    requires i < |remote.codecs| && FindsPartner(local.codecs, remote.codecs, i, h264)
    ensures var l, r := local.codecs[Partner(local.codecs, remote.codecs, i, h264)], remote.codecs[i];
            var e := Found(local.codecs, remote.codecs, i, h264);
            && e.mimeType == l.mimeType && e.kind == l.kind && e.clockRate == l.clockRate && e.channels == l.channels
            && e.localPt == l.payloadType && e.remotePt == r.payloadType
            && e.feedback == CommonFeedback(l.feedback, r.feedback) && e.localRtxPt == None && e.remoteRtxPt == None
  {
    RewritingIsProfileOnly(local.codecs, remote.codecs, i, h264);
    var now := MatchUpTo(local.codecs, remote.codecs, i, h264).locals;
    var k := Partner(local.codecs, remote.codecs, i, h264);
    assert SameButProfile(local.codecs[k], now[k]);
  }

  lemma ExtendedIsFrom(local: Caps, remote: Caps, a: nat, h264: H264)
    requires Negotiates(local, remote, h264) && a < |ExtendedCaps(local, remote, h264).codecs|
    ensures var o := Origins(local.codecs, remote.codecs, |remote.codecs|, h264);
            |o| == |ExtendedCaps(local, remote, h264).codecs| &&
            ExtendedFrom(local, remote, o[a], ExtendedCaps(local, remote, h264).codecs[a], h264)
  {
    var n := |remote.codecs|;
    var o := Origins(local.codecs, remote.codecs, n, h264);
    FoundInOrder(local.codecs, remote.codecs, n, h264);
    var m := FinalMatching(local, remote, h264);
    assert FoundAt(local.codecs, remote.codecs, o[a], m.found[a], h264);
    FoundIsOfGiven(local, remote, o[a], h264);
    FoundKeepsParameters(local, remote, o[a], h264);
    WithRtxIsOfGiven(m.found[a], local, remote, h264);
  }

  /** The extended codecs, in terms of the capabilities as given. They are, in remote order, exactly the
      remote codecs that are not RTX and have a partner when their turn comes; each is extended from its
      partner, with the parameters of each side, the common feedback and the RTX types of both sides or
      none. */
  lemma ExtendedFollowsRemoteOrder(local: Caps, remote: Caps, h264: H264)
    requires Negotiates(local, remote, h264)
    ensures var o := Origins(local.codecs, remote.codecs, |remote.codecs|, h264);
            var e := ExtendedCaps(local, remote, h264).codecs;
            && |e| == |o|
            && IncreasingBelow(o, |remote.codecs|)
            && (forall i :: 0 <= i < |remote.codecs| ==> (i in o <==> Kept(local.codecs, remote.codecs, i, h264)))
            && (forall a :: 0 <= a < |o| ==> ExtendedFrom(local, remote, o[a], e[a], h264))
  {
    OriginsIncrease(local.codecs, remote.codecs, |remote.codecs|, h264);
    forall i | 0 <= i < |remote.codecs|
      ensures i in Origins(local.codecs, remote.codecs, |remote.codecs|, h264)
              <==> Kept(local.codecs, remote.codecs, i, h264)
    {
      OriginsAreKept(local.codecs, remote.codecs, |remote.codecs|, i, h264);
    }
    FoundInOrder(local.codecs, remote.codecs, |remote.codecs|, h264);
    var e := ExtendedCaps(local, remote, h264).codecs;
    forall a | 0 <= a < |e|
      ensures ExtendedFrom(local, remote, Origins(local.codecs, remote.codecs, |remote.codecs|, h264)[a], e[a], h264)
    {
      ExtendedIsFrom(local, remote, a, h264);
    }
  }

  /** The RTX types of an extended codec are both set or both unset exactly when one side has no RTX codec
      for it, or both RTX codecs came with a payload type, or both came without. */
  lemma RtxIsPairedIff(local: Caps, remote: Caps, a: nat, h264: H264)
    requires Negotiates(local, remote, h264) && a < |ExtendedCaps(local, remote, h264).codecs|
    ensures var e := ExtendedCaps(local, remote, h264).codecs[a];
            var l, r := FirstRtx(local.codecs, e.localPt), FirstRtx(remote.codecs, e.remotePt);
            (e.localRtxPt.Some? <==> e.remoteRtxPt.Some?) <==>
              (l < |local.codecs| && r < |remote.codecs| ==>
                (local.codecs[l].payloadType.Some? <==> remote.codecs[r].payloadType.Some?))
  {
    ExtendedIsFrom(local, remote, a, h264);
  }

  // ----- the loops ----------------------------------------------------------------------------

  method ReduceRtcpFeedback(a: seq<Fb>, b: seq<Fb>) returns (common: seq<Fb>)
    ensures common == CommonFeedback(a, b)
  {
    common := [];
    for i := 0 to |a|
      invariant common == CommonFeedback(a[..i], b)
    {
      assert a[..i + 1][..i] == a[..i];
      if a[i] in b {
        common := common + [a[i]];
      }
    }
    assert a[..|a|] == a;
  }

  /** A throw ends the loop. */
  lemma {:induction false} ThrowEnds(locals: seq<Codec>, remotes: seq<Codec>, i: nat, n: nat, h264: H264)
    requires i <= n <= |remotes| && MatchUpTo(locals, remotes, i, h264).threw
    ensures MatchUpTo(locals, remotes, n, h264) == MatchUpTo(locals, remotes, i, h264)
  {
    if i == n {
    } else {
      ThrowEnds(locals, remotes, i, n - 1, h264);
    }
  }

  method MatchMediaCodecs(local: seq<Codec>, remote: seq<Codec>, h264: H264) returns (m: Matching)
    ensures m == MatchUpTo(local, remote, |remote|, h264)
  {
    var locals, remotes, found := local, remote, [];
    for i := 0 to |remote|
      invariant Matching(locals, remotes, found, false) == MatchUpTo(local, remote, i, h264)
    {
      if !IsRtx(remotes[i]) {
        var k := FirstStop(locals, remotes[i], h264);
        if k < |locals| {
          if Clash(locals[k], remotes[i]) {
            ThrowEnds(local, remote, i + 1, |remote|, h264);
            return Matching(locals, remotes, found, true);
          }
          var (l, r) := Rewritten(locals[k], remotes[i], h264);
          var feedback := ReduceRtcpFeedback(l.feedback, r.feedback);
          locals, remotes := locals[k := l], remotes[i := r];
          found := found + [ExtCodec(l.mimeType, l.kind, l.clockRate, l.channels, l.payloadType, None,
                                     r.payloadType, None, l.parameters, r.parameters, feedback)];
        }
      }
    }
    m := Matching(locals, remotes, found, false);
  }

  method MatchHeaderExtensions(locals: seq<HeaderExt>, remotes: seq<HeaderExt>) returns (exts: seq<ExtExt>)
    ensures exts == ExtendExts(locals, remotes)
  {
    exts := [];
    var rest := remotes;
    while rest != []
      invariant exts + ExtendExts(locals, rest) == ExtendExts(locals, remotes)
      decreases |rest|
    {
      var k := FirstExt(locals, rest[0]);
      if k < |locals| {
        exts := exts + [ExtExt(rest[0].kind, rest[0].uri, locals[k].id, rest[0].id, locals[k].encrypt,
                               Turned(rest[0].direction))];
      }
      rest := rest[1..];
    }
  }

  /** `None` when the call throws. */
  method GetExtendedRtpCapabilities(local: Caps, remote: Caps, h264: H264) returns (extended: Option<Extended>)
    requires Negotiable(local, remote)
    ensures extended ==
            if Negotiates(local, remote, h264) then Some(ExtendedCaps(local, remote, h264)) else None
  {
    var m := MatchMediaCodecs(local.codecs, remote.codecs, h264);
    if m.threw {
      return None;
    }
    RewritingKeepsRtx(local.codecs, remote.codecs, |remote.codecs|, h264);
    var codecs := MatchRtxCodecs(m);
    var exts := MatchHeaderExtensions(local.exts, remote.exts);
    extended := Some(Extended(codecs, exts));
  }

  /** The RTX loop. */
  method MatchRtxCodecs(m: Matching) returns (codecs: seq<ExtCodec>)
    requires AptsPresent(m.locals) && AptsPresent(m.remotes)
    ensures codecs == seq(|m.found|, i requires 0 <= i < |m.found| => WithRtx(m.found[i], m.locals, m.remotes))
  {
    codecs := m.found;
    for i := 0 to |codecs|
      invariant |codecs| == |m.found|
      invariant forall j :: 0 <= j < i ==> codecs[j] == WithRtx(m.found[j], m.locals, m.remotes)
      invariant forall j :: i <= j < |codecs| ==> codecs[j] == m.found[j]
    {
      var l := FirstRtx(m.locals, codecs[i].localPt);
      if l < |m.locals| {
        var r := FirstRtx(m.remotes, codecs[i].remotePt);
        if r < |m.remotes| {
          codecs := codecs[i := codecs[i].(localRtxPt := m.locals[l].payloadType,
                                           remoteRtxPt := m.remotes[r].payloadType)];
        }
      }
    }
  }
}
