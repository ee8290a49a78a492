/**
  The remote SDP as a state machine on values (src/sdp/RemoteSdp.cpp). The class in `RemoteSdp.dfy`
  is proved to follow these functions; the properties over whole runs are proved here.

  `midToIndex` is a `std::map` read with `operator[]`, so looking up a missing mid inserts it with
  index 0. The functions keep that.
 */
module RemoteSdpModel {
  import opened Text
  import opened Ssrc
  import opened MediaSections

  /** `media`, `bundle`, `version` and `iceLite` are the fields of `sdpObject` that change. */
  datatype Sdp = Sdp(
    ice: Ice, role: string, sections: seq<MediaObject>, midToIndex: map<string, nat>, firstMid: string,
    media: seq<MediaObject>, bundle: string, version: uint32, iceLite: bool)

  function Init(ice: Ice, role: string): Sdp
  {
    Sdp(ice, role, [], map[], "", [], "", 0, ice.lite)
  }

  /** What every operation relies on to stay inside the vector and the media array. */
  predicate Shaped(s: Sdp) {
    |s.media| == |s.sections| &&
    forall mid :: mid in s.midToIndex ==> s.midToIndex[mid] < |s.sections|
  }

  // ----- the operations ---------------------------------------------------------------------

  function At(m: map<string, nat>, mid: string): nat { if mid in m then m[mid] else 0 }

  function Touch(m: map<string, nat>, mid: string): map<string, nat> { if mid in m then m else m[mid := 0] }

  /** The BUNDLE string loop, continuing from `acc`. */
  function Bundle(acc: string, sections: seq<MediaObject>): string
    decreases |sections|
  {
    if sections == [] then acc
    else if sections[0].Closed() then Bundle(acc, sections[1..])
    else Bundle(if acc == "" then sections[0].mid else acc + " " + sections[0].mid, sections[1..])
  }

  /** Index of the first closed section, or the length when none is closed. */
  function FirstClosed(sections: seq<MediaObject>): (k: nat)
    ensures k <= |sections|
    ensures k < |sections| ==> sections[k].Closed()
    ensures forall i :: 0 <= i < k ==> !sections[i].Closed()
  {
    if sections == [] || sections[0].Closed() then 0 else 1 + FirstClosed(sections[1..])
  }

  datatype SectionIdx = SectionIdx(idx: nat, reuseMid: string)

  function NextIdx(s: Sdp): SectionIdx
  {
    var k := FirstClosed(s.sections);
    SectionIdx(k, if k < |s.sections| then s.sections[k].mid else "")
  }

  function AllWithIce(sections: seq<MediaObject>, ice: Ice): (r: seq<MediaObject>)
    ensures |r| == |sections| && forall i :: 0 <= i < |r| ==> r[i] == WithIce(sections[i], ice)
  {
    seq(|sections|, i requires 0 <= i < |sections| => WithIce(sections[i], ice))
  }

  function UpdateIce(s: Sdp, ice: Ice): Sdp
  {
    var sections := AllWithIce(s.sections, ice);
    s.(ice := ice, iceLite := s.iceLite || ice.lite, sections := sections, media := sections)
  }

  function AllWithRole(sections: seq<MediaObject>, role: string): (r: seq<MediaObject>)
    ensures |r| == |sections| && forall i :: 0 <= i < |r| ==> r[i] == WithRole(sections[i], role)
  {
    seq(|sections|, i requires 0 <= i < |sections| => WithRole(sections[i], role))
  }

  function UpdateRole(s: Sdp, role: string): Sdp
  {
    var sections := AllWithRole(s.sections, role);
    s.(role := role, iceLite := s.iceLite || s.ice.lite, sections := sections, media := sections)
  }

  function Add(s: Sdp, o: MediaObject): Sdp
  {
    s.(firstMid := if s.firstMid == "" then o.mid else s.firstMid,
       sections := s.sections + [o],
       midToIndex := s.midToIndex[o.mid := |s.sections|],
       media := s.media + [o],
       bundle := Bundle("", s.sections + [o]))
  }

  function Replace(s: Sdp, o: MediaObject, reuseMid: string): Sdp
    requires Shaped(s) && s.sections != []
  {
    if reuseMid != "" then
      var idx := At(s.midToIndex, reuseMid);
      var sections := s.sections[idx := o];
      s.(sections := sections,
         midToIndex := (Touch(s.midToIndex, reuseMid) - {s.sections[idx].mid})[o.mid := idx],
         media := s.media[idx := o],
         bundle := Bundle("", sections))
    else
      var idx := At(s.midToIndex, o.mid);
      s.(sections := s.sections[idx := o],
         midToIndex := Touch(s.midToIndex, o.mid),
         media := s.media[|s.media| - 1 := o])
  }

  function Send(s: Sdp, offer: OfferedMedia, reuseMid: string, params: RtpParams): Sdp
    requires Shaped(s) && (reuseMid != "" ==> s.sections != [])
  {
    var o := AnswerObject(s.ice, s.role, offer, params);
    if reuseMid != "" then Replace(s, o, reuseMid) else Add(s, o)
  }

  const NO_PARAMS := RtpParams([], [], Encoding(0, None), None)

  function SendSctp(s: Sdp, offer: OfferedMedia): Sdp
  {
    Add(s, AnswerObject(s.ice, s.role, offer, NO_PARAMS))
  }

  function RecvSctp(s: Sdp): Sdp
  {
    Add(s, OfferObject(s.ice, true, "datachannel", "application", NO_PARAMS, "", ""))
  }

  function Receive(s: Sdp, mid: string, kind: string, params: RtpParams, streamId: string, trackId: string): Sdp
    requires Shaped(s)
  {
    var o := OfferObject(s.ice, false, mid, kind, params, streamId, trackId);
    var k := FirstClosed(s.sections);
    if k < |s.sections| then Replace(s, o, s.sections[k].mid) else Add(s, o)
  }

  function Close(s: Sdp, mid: string): Sdp
    requires Shaped(s) && s.sections != []
  {
    var idx := At(s.midToIndex, mid);
    var o := if mid == s.firstMid then Disabled(s.sections[idx]) else ClosedObject(s.sections[idx]);
    var sections := s.sections[idx := o];
    s.(sections := sections, midToIndex := Touch(s.midToIndex, mid), media := s.media[idx := o],
       bundle := Bundle("", sections))
  }

  /** `GetSdp` counts the version up (a `uint32_t`) before writing. */
  function Render(s: Sdp): Sdp { s.(version := (s.version + 1) % UINT32) }

  lemma CloseShaped(s: Sdp, mid: string)
    requires Shaped(s) && s.sections != []
    ensures Shaped(Close(s, mid))
  {
  }

  lemma AddShaped(s: Sdp, o: MediaObject)
    requires Shaped(s)
    ensures Shaped(Add(s, o))
  {
  }

  lemma ReplaceShaped(s: Sdp, o: MediaObject, reuseMid: string)
    requires Shaped(s) && s.sections != []
    ensures Shaped(Replace(s, o, reuseMid))
  {
  }

  // ----- steps ------------------------------------------------------------------------------

  /** One call from a handler. `SendMedia` passes on the slot that `NextIdx` named. */
  datatype Op =
    | SetIce(ice: Ice)
    | SetRole(role: string)
    | SendMedia(offer: OfferedMedia, params: RtpParams)
    | SendData(offer: OfferedMedia)
    | RecvData
    | RecvMedia(mid: string, kind: string, params: RtpParams, streamId: string, trackId: string)
    | CloseMid(mid: string)
    | Write

  /** The call stays inside the vector. */
  predicate Defined(s: Sdp, op: Op) { Shaped(s) && (op.CloseMid? ==> s.sections != []) }

  function Step(s: Sdp, op: Op): Sdp
    requires Defined(s, op)
  {
    match op
    case SetIce(ice) => UpdateIce(s, ice)
    case SetRole(role) => UpdateRole(s, role)
    case SendMedia(offer, params) => Send(s, offer, NextIdx(s).reuseMid, params)
    case SendData(offer) => SendSctp(s, offer)
    case RecvData => RecvSctp(s)
    case RecvMedia(mid, kind, params, streamId, trackId) => Receive(s, mid, kind, params, streamId, trackId)
    case CloseMid(mid) => Close(s, mid)
    case Write => Render(s)
  }

  // ----- coherence --------------------------------------------------------------------------

  /** The index is exactly the inverse of the sections' mids. */
  ghost predicate Indexed(sections: seq<MediaObject>, midToIndex: map<string, nat>) {
    && (forall i :: 0 <= i < |sections| ==>
          sections[i].mid != "" && sections[i].mid in midToIndex && midToIndex[sections[i].mid] == i)
    && (forall mid :: mid in midToIndex ==>
          midToIndex[mid] < |sections| && sections[midToIndex[mid]].mid == mid)
  }

  ghost predicate Credentials(m: MediaObject, ice: Ice, role: string) {
    && m.iceUfrag == ice.ufrag && m.icePwd == ice.pwd
    && m.setup == if m.answer then SetupFor(role) else Some("actpass")
  }

  /** The first section is pinned: it keeps the first mid and is never closed. */
  ghost predicate Pinned(sections: seq<MediaObject>, firstMid: string) {
    if sections == [] then firstMid == "" else sections[0].mid == firstMid && !sections[0].Closed()
  }

  /** The redundant views of the table agree. */
  ghost predicate Coherent(s: Sdp) {
    && s.media == s.sections
    && Indexed(s.sections, s.midToIndex)
    && (forall i :: 0 <= i < |s.sections| ==> Credentials(s.sections[i], s.ice, s.role))
    && Pinned(s.sections, s.firstMid)
    && s.bundle == Bundle("", s.sections)
    && (s.ice.lite ==> s.iceLite)
  }

  lemma CoherentShaped(s: Sdp)
    requires Coherent(s)
    ensures Shaped(s)
  {
  }

  /** A mid may enter the slot that is taken next: it is new, or it is the mid of that slot. */
  predicate Enters(s: Sdp, mid: string) {
    mid != "" && (mid !in s.midToIndex || mid == NextIdx(s).reuseMid)
  }

  /** What the caller of an operation has to guarantee. */
  predicate Legal(s: Sdp, op: Op) {
    match op
    case SetIce(_) => true
    case SetRole(role) =>
      || SetupFor(role).Some?
      || SetupFor(s.role).None?
      || (forall i :: 0 <= i < |s.sections| ==> !s.sections[i].answer)
    case SendMedia(offer, _) => Enters(s, offer.mid)
    case SendData(offer) => offer.mid != "" && offer.mid !in s.midToIndex
    case RecvData => "datachannel" !in s.midToIndex
    case RecvMedia(mid, _, _, _, _) => Enters(s, mid)
    case CloseMid(mid) => mid in s.midToIndex
    case Write => true
  }

  lemma BundleIgnores(acc: string, a: seq<MediaObject>, b: seq<MediaObject>)
    requires |a| == |b|
    requires forall i :: 0 <= i < |a| ==> a[i].mid == b[i].mid && a[i].port == b[i].port
    ensures Bundle(acc, a) == Bundle(acc, b)
    decreases |a|
  {
  }

  lemma AddKeeps(s: Sdp, o: MediaObject)
    requires Coherent(s) && Credentials(o, s.ice, s.role) && !o.Closed()
    ensures Coherent(Add(s, o)) <==> o.mid != "" && o.mid !in s.midToIndex
  {
    var t := Add(s, o);
    if o.mid in s.midToIndex {
      assert t.sections[s.midToIndex[o.mid]].mid == o.mid;
    }
    assert t.sections[|s.sections|] == o;
  }

  lemma ReplaceKeeps(s: Sdp, o: MediaObject, k: nat)
    requires Coherent(s) && Credentials(o, s.ice, s.role)
    requires k < |s.sections| && s.sections[k].Closed()
    ensures Shaped(s)
    ensures Coherent(Replace(s, o, s.sections[k].mid)) <==>
            o.mid != "" && (o.mid !in s.midToIndex || o.mid == s.sections[k].mid)
  {
    CoherentShaped(s);
    var t := Replace(s, o, s.sections[k].mid);
    assert t.sections[k] == o;
    if o.mid in s.midToIndex && o.mid != s.sections[k].mid {
      assert t.sections[s.midToIndex[o.mid]].mid == o.mid;
    }
  }

  lemma CloseKeeps(s: Sdp, mid: string)
    requires Coherent(s) && s.sections != []
    ensures Shaped(s)
    ensures Coherent(Close(s, mid)) <==> mid in s.midToIndex
  {
    CoherentShaped(s);
    var t := Close(s, mid);
    if mid in s.midToIndex {
      assert t.sections[0].mid == s.sections[0].mid;
      assert mid != s.firstMid ==> s.midToIndex[mid] != 0;
    } else {
      assert mid in t.midToIndex && t.midToIndex[mid] == 0;
    }
  }

  /** Rewriting the objects without touching mids or ports keeps everything but the credentials. */
  lemma RewriteKeeps(s: Sdp, t: Sdp)
    requires Coherent(s) && |t.sections| == |s.sections| && t.media == t.sections
    requires forall i :: 0 <= i < |s.sections| ==>
               t.sections[i].mid == s.sections[i].mid && t.sections[i].port == s.sections[i].port
    requires t.midToIndex == s.midToIndex && t.firstMid == s.firstMid && t.bundle == s.bundle
    requires t.ice.lite ==> t.iceLite
    ensures Coherent(t) <==> forall i :: 0 <= i < |t.sections| ==> Credentials(t.sections[i], t.ice, t.role)
  {
    BundleIgnores("", s.sections, t.sections);
  }

  lemma RoleKeeps(s: Sdp, role: string)
    requires Coherent(s)
    ensures Coherent(UpdateRole(s, role)) <==> Legal(s, SetRole(role))
  {
    var t := UpdateRole(s, role);
    RewriteKeeps(s, t);
    if !Legal(s, SetRole(role)) {
      var i :| 0 <= i < |s.sections| && s.sections[i].answer;
      assert Credentials(s.sections[i], s.ice, s.role);
      assert t.sections[i] == WithRole(s.sections[i], role);
    }
  }

  /** Where a new media section goes. */
  function Enter(s: Sdp, o: MediaObject): Sdp
    requires Shaped(s)
  {
    var k := FirstClosed(s.sections);
    if k < |s.sections| then Replace(s, o, s.sections[k].mid) else Add(s, o)
  }

  lemma EnterKeeps(s: Sdp, o: MediaObject)
    requires Coherent(s) && Credentials(o, s.ice, s.role) && !o.Closed()
    ensures Shaped(s)
    ensures Coherent(Enter(s, o)) <==> Enters(s, o.mid)
  {
    var k := FirstClosed(s.sections);
    if k < |s.sections| { ReplaceKeeps(s, o, k); } else { AddKeeps(s, o); }
  }

  /** Both sides put a new media section in the same place: the empty-mid branch of
      `ReplaceMediaSection` is never taken. */
  lemma NewMediaEnters(s: Sdp, op: Op)
    requires Coherent(s) && Shaped(s) && (op.SendMedia? || op.RecvMedia?)
    ensures Step(s, op) == Enter(s, NewObject(s, op))
    ensures FirstClosed(s.sections) < |s.sections| ==> NextIdx(s).reuseMid != ""
  {
  }

  function NewObject(s: Sdp, op: Op): (o: MediaObject)
    requires op.SendMedia? || op.SendData? || op.RecvMedia? || op.RecvData?
    ensures Credentials(o, s.ice, s.role) && !o.Closed()
  {
    match op
    case SendMedia(offer, params) => AnswerObject(s.ice, s.role, offer, params)
    case SendData(offer) => AnswerObject(s.ice, s.role, offer, NO_PARAMS)
    case RecvData => OfferObject(s.ice, true, "datachannel", "application", NO_PARAMS, "", "")
    case RecvMedia(mid, kind, params, streamId, trackId) =>
      OfferObject(s.ice, false, mid, kind, params, streamId, trackId)
  }

  /** Coherence is kept by exactly the legal calls. */
  lemma StepKeepsCoherence(s: Sdp, op: Op)
    requires Coherent(s) && Defined(s, op)
    ensures Coherent(Step(s, op)) <==> Legal(s, op)
  {
    match op
    case SetIce(ice) => RewriteKeeps(s, UpdateIce(s, ice));
    case SetRole(role) => RoleKeeps(s, role);
    case SendMedia(_, _) => NewMediaEnters(s, op); EnterKeeps(s, NewObject(s, op));
    case SendData(_) => AddKeeps(s, NewObject(s, op));
    case RecvData => AddKeeps(s, NewObject(s, op));
    case RecvMedia(_, _, _, _, _) => NewMediaEnters(s, op); EnterKeeps(s, NewObject(s, op));
    case CloseMid(mid) => CloseKeeps(s, mid);
    case Write =>
  }

  /** Closing a mid that is not in the table hits section 0, whatever it is used for. */
  lemma ClosingUnknownMidHitsFirst(s: Sdp, mid: string)
    requires Coherent(s) && s.sections != [] && mid !in s.midToIndex
    ensures Shaped(s) && Close(s, mid).sections[0].Closed() && !s.sections[0].Closed()
  {
  }

  // ----- the BUNDLE string ------------------------------------------------------------------

  /** Mids of the sections that are not closed, in m-line order. */
  function OpenMids(sections: seq<MediaObject>): seq<string>
  {
    if sections == [] then []
    else (if sections[0].Closed() then [] else [sections[0].mid]) + OpenMids(sections[1..])
  }

  /** The same loop over the open mids alone. */
  function BundleMids(acc: string, mids: seq<string>): string
    decreases |mids|
  {
    if mids == [] then acc else BundleMids(if acc == "" then mids[0] else acc + " " + mids[0], mids[1..])
  }

  lemma {:induction false} BundleOfOpen(acc: string, sections: seq<MediaObject>)
    ensures Bundle(acc, sections) == BundleMids(acc, OpenMids(sections))
    decreases |sections|
  {
    if sections == [] {
    } else {
      var rest := sections[1..];
      if sections[0].Closed() {
        assert OpenMids(sections) == OpenMids(rest);
        BundleOfOpen(acc, rest);
      } else {
        assert OpenMids(sections)[1..] == OpenMids(rest);
        BundleOfOpen(if acc == "" then sections[0].mid else acc + " " + sections[0].mid, rest);
      }
    }
  }

  lemma {:induction false} BundleMidsIsJoined(acc: string, mids: seq<string>)
    requires acc != ""
    ensures BundleMids(acc, mids) == if mids == [] then acc else acc + " " + Joined(mids, ' ')
    decreases |mids|
  {
    if mids == [] {
    } else {
      BundleMidsIsJoined(acc + " " + mids[0], mids[1..]);
    }
  }

  lemma {:induction false} OpenMidsNonEmpty(sections: seq<MediaObject>, i: nat)
    requires forall i :: 0 <= i < |sections| ==> sections[i].mid != ""
    requires i < |OpenMids(sections)|
    ensures OpenMids(sections)[i] != ""
    decreases |sections|
  {
    if !sections[0].Closed() && i > 0 {
      OpenMidsNonEmpty(sections[1..], i - 1);
    } else if sections[0].Closed() {
      OpenMidsNonEmpty(sections[1..], i);
    }
  }

  /** Splitting the BUNDLE string on spaces gives exactly the mids of the sections that are not
      closed, in m-line order, if and only if none of those mids holds a space. */
  lemma BundleSplits(s: Sdp)
    requires Coherent(s)
    ensures Tokens(s.bundle, ' ') == OpenMids(s.sections) <==>
            forall i :: 0 <= i < |OpenMids(s.sections)| ==> ' ' !in OpenMids(s.sections)[i]
  {
    var open := OpenMids(s.sections);
    BundleOfOpen("", s.sections);
    if open != [] {
      OpenMidsNonEmpty(s.sections, 0);
      OpenMidsNonEmpty(s.sections, |open| - 1);
      BundleMidsIsJoined(open[0], open[1..]);
    }
    assert s.bundle == Joined(open, ' ');
    SplitUndoesJoin(open, ' ');
  }

  // ----- what closing does --------------------------------------------------------------------

  /** The mids other than this one, in order. */
  function Others(mids: seq<string>, mid: string): seq<string>
  {
    if mids == [] then [] else (if mids[0] == mid then [] else [mids[0]]) + Others(mids[1..], mid)
  }

  /** Neither sends nor receives, and says nothing about what it would. */
  predicate Inactive(o: MediaObject) {
    && o.direction == Some("inactive") && o.ext == None && o.ssrcs == None && o.ssrcGroups == None
    && o.simulcast == None && o.rids == None
  }

  /** From `s` to `t` the section of `mid` was closed: its port is 0, the open mids have lost it, and its slot
      may be taken next. The first section became inactive and stayed open. No other section changed. */
  ghost predicate ClosedBy(s: Sdp, mid: string, t: Sdp) {
    && mid in s.midToIndex && t.midToIndex == s.midToIndex
    && var k := s.midToIndex[mid];
       && k < |s.sections| == |t.sections|
       && Inactive(t.sections[k]) && SameSection(s.sections[k], t.sections[k])
       && (if mid == s.firstMid
           then t.sections[k].port == s.sections[k].port > 0 && OpenMids(t.sections) == OpenMids(s.sections)
           else && t.sections[k].port == 0 && !t.sections[k].extmapAllowMixed
                && OpenMids(t.sections) == Others(OpenMids(s.sections), mid) && NextIdx(t).idx <= k)
       && forall n :: 0 <= n < |s.sections| && n != k ==> t.sections[n] == s.sections[n]
  }

  lemma {:induction false} OthersAll(mids: seq<string>, mid: string)
    requires mid !in mids
    ensures Others(mids, mid) == mids
  {
    if mids == [] {
    } else {
      OthersAll(mids[1..], mid);
    }
  }

  lemma {:induction false} OpenMidsAre(sections: seq<MediaObject>, mid: string)
    requires forall n :: 0 <= n < |sections| ==> sections[n].mid != mid
    ensures mid !in OpenMids(sections)
  {
    if sections == [] {
    } else {
      OpenMidsAre(sections[1..], mid);
    }
  }

  /** Closing the one section with this mid takes its mid from the open ones. */
  lemma {:induction false} OpenMidsWithout(a: seq<MediaObject>, b: seq<MediaObject>, k: nat)
    requires |a| == |b| && k < |a| && b[k].Closed()
    requires forall n :: 0 <= n < |a| && n != k ==> b[n] == a[n] && a[n].mid != a[k].mid
    ensures OpenMids(b) == Others(OpenMids(a), a[k].mid)
  {
    if k == 0 {
      assert a[1..] == b[1..];
      OpenMidsAre(a[1..], a[0].mid);
      OthersAll(OpenMids(a[1..]), a[0].mid);
      assert OpenMids(b) == OpenMids(a[1..]);
      if a[0].Closed() {
        assert OpenMids(a) == OpenMids(a[1..]);
      } else {
        assert OpenMids(a)[1..] == OpenMids(a[1..]);
      }
    } else {
      OpenMidsWithout(a[1..], b[1..], k - 1);
      assert a[1..][k - 1] == a[k];
      if a[0].Closed() {
        assert OpenMids(a) == OpenMids(a[1..]) && OpenMids(b) == OpenMids(b[1..]);
      } else {
        assert OpenMids(a)[1..] == OpenMids(a[1..]);
      }
    }
  }

  lemma {:induction false} OpenMidsSame(a: seq<MediaObject>, b: seq<MediaObject>)
    requires |a| == |b| && forall n :: 0 <= n < |a| ==> b[n].mid == a[n].mid && b[n].port == a[n].port
    ensures OpenMids(b) == OpenMids(a)
  {
    if a == [] {
    } else {
      OpenMidsSame(a[1..], b[1..]);
    }
  }

  /** Closing a known mid closes its section, or silences it if it is the first. */
  lemma CloseCloses(s: Sdp, mid: string)
    requires Coherent(s) && mid in s.midToIndex
    ensures Shaped(s) && s.sections != [] && ClosedBy(s, mid, Close(s, mid))
  {
    CoherentShaped(s);
    var k, t := s.midToIndex[mid], Close(s, mid);
    if mid == s.firstMid {
      assert k == 0;
      OpenMidsSame(s.sections, t.sections);
    } else {
      OpenMidsWithout(s.sections, t.sections, k);
    }
  }

  // ----- runs -------------------------------------------------------------------------------

  /** A run: the states before and after each legal call, from a new table on. */
  ghost predicate Run(t: seq<Sdp>, ops: seq<Op>) {
    && |t| == |ops| + 1
    && (exists ice: Ice, role: string :: t[0] == Init(ice, role))
    && forall i :: 0 <= i < |ops| ==>
         Defined(t[i], ops[i]) && Legal(t[i], ops[i]) && t[i + 1] == Step(t[i], ops[i])
  }

  lemma {:induction false} RunCoherent(t: seq<Sdp>, ops: seq<Op>, i: nat)
    requires Run(t, ops) && i < |t|
    ensures Coherent(t[i])
  {
    if i == 0 {
    } else {
      RunCoherent(t, ops, i - 1);
      StepKeepsCoherence(t[i - 1], ops[i - 1]);
    }
  }

  /** In every run a call that closes a mid closes its section, or silences it if it is the first. */
  lemma EveryCloseCloses(t: seq<Sdp>, ops: seq<Op>, i: nat)
    requires Run(t, ops) && i < |ops| && ops[i].CloseMid?
    ensures ClosedBy(t[i], ops[i].mid, t[i + 1])
  {
    RunCoherent(t, ops, i);
    CloseCloses(t[i], ops[i].mid);
  }

  /** In every run an answer section carries the setup that its role stands for, in the words of the SDP, and
      an offer section leaves the choice to the other side. */
  lemma SetupsFollowRole(t: seq<Sdp>, ops: seq<Op>, i: nat, k: nat)
    requires Run(t, ops) && i < |t| && k < |t[i].sections|
    ensures t[i].sections[k].setup ==
            if !t[i].sections[k].answer then Some("actpass")
            else if t[i].role == "client" then Some("active")
            else if t[i].role == "server" then Some("passive")
            else if t[i].role == "auto" then Some("actpass")
            else None
  {
    RunCoherent(t, ops, i);
    assert Credentials(t[i].sections[k], t[i].ice, t[i].role);
  }

  /** The credentials last set, or the first ones. */
  function LastIce(ops: seq<Op>, ice: Ice): Ice
  {
    if ops == [] then ice
    else if ops[|ops| - 1].SetIce? then ops[|ops| - 1].ice
    else LastIce(ops[..|ops| - 1], ice)
  }

  function LastRole(ops: seq<Op>, role: string): string
  {
    if ops == [] then role
    else if ops[|ops| - 1].SetRole? then ops[|ops| - 1].role
    else LastRole(ops[..|ops| - 1], role)
  }

  function Writes(ops: seq<Op>): nat
  {
    if ops == [] then 0 else Writes(ops[..|ops| - 1]) + if ops[|ops| - 1].Write? then 1 else 0
  }

  lemma StepSettings(s: Sdp, op: Op)
    requires Defined(s, op)
    ensures var t := Step(s, op);
            && t.ice == (if op.SetIce? then op.ice else s.ice)
            && t.role == (if op.SetRole? then op.role else s.role)
            && t.version == (if op.Write? then (s.version + 1) % 0x1_0000_0000 else s.version)
  {
  }

  /** In every run the credentials and the role are those last set. */
  lemma {:induction false} SettingsAreLatest(t: seq<Sdp>, ops: seq<Op>, ice: Ice, role: string, i: nat)
    requires Run(t, ops) && t[0] == Init(ice, role) && i < |t|
    ensures t[i].ice == LastIce(ops[..i], ice) && t[i].role == LastRole(ops[..i], role)
  {
    if i == 0 {
    } else {
      var j := i - 1;
      SettingsAreLatest(t, ops, ice, role, j);
      StepSettings(t[j], ops[j]);
      SettingsNext(ops, ice, role, j);
      assert i == j + 1;
    }
  }

  lemma SettingsNext(ops: seq<Op>, ice: Ice, role: string, j: nat)
    requires j < |ops|
    ensures LastIce(ops[..j + 1], ice) == if ops[j].SetIce? then ops[j].ice else LastIce(ops[..j], ice)
    ensures LastRole(ops[..j + 1], role) == if ops[j].SetRole? then ops[j].role else LastRole(ops[..j], role)
    ensures Writes(ops[..j + 1]) == Writes(ops[..j]) + if ops[j].Write? then 1 else 0
  {
    assert ops[..j + 1][..j] == ops[..j];
  }

  /** In every run the version is the number of descriptions written, as a 32-bit number. */
  lemma {:induction false} VersionCountsWrites(t: seq<Sdp>, ops: seq<Op>, i: nat)
    requires Run(t, ops) && i < |t|
    ensures t[i].version == Writes(ops[..i]) % 0x1_0000_0000
  {
    if i == 0 {
    } else {
      var j := i - 1;
      VersionCountsWrites(t, ops, j);
      VersionNext(t[j], ops, j);
      assert i == j + 1;
    }
  }

  lemma VersionNext(s: Sdp, ops: seq<Op>, j: nat)
    requires j < |ops| && Defined(s, ops[j]) && s.version == Writes(ops[..j]) % 0x1_0000_0000
    ensures Step(s, ops[j]).version == Writes(ops[..j + 1]) % 0x1_0000_0000
  {
    StepSettings(s, ops[j]);
    SettingsNext(ops, s.ice, s.role, j);
    CountOn(Writes(ops[..j]));
  }

  lemma CountOn(n: nat)
    ensures (n % 0x1_0000_0000 + 1) % 0x1_0000_0000 == (n + 1) % 0x1_0000_0000
  {
  }

  /** In every run every section has the credentials last set. */
  lemma CredentialsAreLatest(t: seq<Sdp>, ops: seq<Op>, ice: Ice, role: string, i: nat, k: nat)
    requires Run(t, ops) && t[0] == Init(ice, role) && i < |t| && k < |t[i].sections|
    ensures t[i].sections[k].iceUfrag == LastIce(ops[..i], ice).ufrag
    ensures t[i].sections[k].icePwd == LastIce(ops[..i], ice).pwd
  {
    RunCoherent(t, ops, i);
    SettingsAreLatest(t, ops, ice, role, i);
    assert Credentials(t[i].sections[k], t[i].ice, t[i].role);
  }

  /** What one legal call may do to the m-lines: none is dropped or moved, at most one is added at
      the end; a slot gets another section only when it was closed, reopens only as the first closed one
      for new media, and closes only by its own mid and never as the first. */
  ghost predicate SlotsKept(s: Sdp, op: Op, t: Sdp) {
    && |s.sections| <= |t.sections| <= |s.sections| + 1
    && forall k :: 0 <= k < |s.sections| ==> SlotKept(s, op, t.sections[k], k)
  }

  /** The same section, whatever credentials, role and activity it has: what its constructor fixed. */
  predicate SameSection(a: MediaObject, b: MediaObject) {
    a.mid == b.mid && a.answer == b.answer && a.kind == b.kind && a.protocol == b.protocol && a.payloads == b.payloads
  }

  ghost predicate SlotKept(s: Sdp, op: Op, after: MediaObject, k: nat)
    requires k < |s.sections|
  {
    var before := s.sections[k];
    && (SameSection(before, after) || before.Closed())
    && (before.Closed() && !after.Closed() ==> k == FirstClosed(s.sections) && (op.SendMedia? || op.RecvMedia?))
    && (after.Closed() && !before.Closed() ==> op == CloseMid(before.mid) && k > 0)
  }

  /** A new media section changes at most the first closed slot or adds one. */
  lemma EnterSections(s: Sdp, o: MediaObject)
    requires Coherent(s) && Shaped(s)
    ensures var k := FirstClosed(s.sections);
            Enter(s, o).sections == if k < |s.sections| then s.sections[k := o] else s.sections + [o]
  {
  }

  lemma EnterKeepsSlots(s: Sdp, op: Op)
    requires Coherent(s) && Shaped(s) && (op.SendMedia? || op.RecvMedia?)
    ensures SlotsKept(s, op, Enter(s, NewObject(s, op)))
  {
    EnterSections(s, NewObject(s, op));
    assert !NewObject(s, op).Closed();
  }

  lemma CloseKeepsSlots(s: Sdp, mid: string)
    requires Coherent(s) && Shaped(s) && s.sections != [] && mid in s.midToIndex
    ensures SlotsKept(s, CloseMid(mid), Close(s, mid))
  {
  }

  lemma StepKeepsSlots(s: Sdp, op: Op)
    requires Coherent(s) && Defined(s, op) && Legal(s, op)
    ensures SlotsKept(s, op, Step(s, op))
  {
    if op.SendMedia? || op.RecvMedia? {
      NewMediaEnters(s, op);
      EnterKeepsSlots(s, op);
    } else if op.CloseMid? {
      CloseKeepsSlots(s, op.mid);
    } else if op.SetIce? || op.SetRole? {
      RewriteKeepsSlots(s, op);
    } else if op.SendData? || op.RecvData? {
      DataKeepsSlots(s, op);
    } else {
    }
  }

  lemma RewriteKeepsSlots(s: Sdp, op: Op)
    requires Shaped(s) && (op.SetIce? || op.SetRole?)
    ensures SlotsKept(s, op, Step(s, op))
  {
  }

  lemma DataKeepsSlots(s: Sdp, op: Op)
    requires Shaped(s) && (op.SendData? || op.RecvData?)
    ensures SlotsKept(s, op, Step(s, op))
  {
  }

  /** Slot `k` is there and open in every state from `i` up to but not including `j`. */
  ghost predicate OpenDuring(t: seq<Sdp>, i: nat, j: nat, k: nat)
    requires j < |t|
  {
    forall n :: i <= n < j ==> k < |t[n].sections| && !t[n].sections[k].Closed()
  }

  ghost predicate KeptAlong(t: seq<Sdp>, ops: seq<Op>) {
    |t| == |ops| + 1 && forall i :: 0 <= i < |ops| ==> SlotsKept(t[i], ops[i], t[i + 1])
  }

  lemma RunKeepsSlots(t: seq<Sdp>, ops: seq<Op>)
    requires Run(t, ops)
    ensures KeptAlong(t, ops)
  {
    forall i | 0 <= i < |ops| ensures SlotsKept(t[i], ops[i], t[i + 1]) {
      RunCoherent(t, ops, i);
      StepKeepsSlots(t[i], ops[i]);
    }
  }

  lemma {:induction false} Grows(t: seq<Sdp>, ops: seq<Op>, i: nat, j: nat)
    requires KeptAlong(t, ops) && i <= j < |t|
    ensures |t[i].sections| <= |t[j].sections|
  {
    if i == j {
    } else {
      Grows(t, ops, i, j - 1);
      assert SlotsKept(t[j - 1], ops[j - 1], t[j]);
    }
  }

  lemma {:induction false} Stays(t: seq<Sdp>, ops: seq<Op>, i: nat, j: nat, k: nat)
    requires KeptAlong(t, ops) && i <= j < |t| && k < |t[i].sections| && OpenDuring(t, i, j, k)
    ensures k < |t[j].sections| && SameSection(t[i].sections[k], t[j].sections[k])
  {
    if i == j {
    } else {
      Stays(t, ops, i, j - 1, k);
      assert SlotsKept(t[j - 1], ops[j - 1], t[j]);
      assert SlotKept(t[j - 1], ops[j - 1], t[j].sections[k], k);
    }
  }

  /** Along a run no m-line is dropped or moved: the table never shrinks, and a slot keeps its section
      for as long as it is open. */
  lemma SlotStays(t: seq<Sdp>, ops: seq<Op>, i: nat, j: nat, k: nat)
    requires Run(t, ops) && i <= j < |t| && k < |t[i].sections|
    ensures |t[i].sections| <= |t[j].sections|
    ensures OpenDuring(t, i, j, k) ==> SameSection(t[i].sections[k], t[j].sections[k])
  {
    RunKeepsSlots(t, ops);
    Grows(t, ops, i, j);
    if OpenDuring(t, i, j, k) { Stays(t, ops, i, j, k); }
  }

  /** The section at index 0 is never closed and never replaced, and its mid is the first mid. */
  lemma FirstSectionStays(t: seq<Sdp>, ops: seq<Op>, i: nat, j: nat)
    requires Run(t, ops) && i <= j < |t| && t[i].sections != []
    ensures t[j].sections != [] && !t[j].sections[0].Closed()
    ensures SameSection(t[i].sections[0], t[j].sections[0]) && t[j].sections[0].mid == t[j].firstMid
  {
    forall n | i <= n <= j ensures t[n].sections != [] && !t[n].sections[0].Closed() {
      SlotStays(t, ops, i, n, 0);
      RunCoherent(t, ops, n);
    }
    SlotStays(t, ops, i, j, 0);
    RunCoherent(t, ops, j);
  }

  // ----- the length of the table ------------------------------------------------------------

  function OpenCount(sections: seq<MediaObject>): nat { |OpenMids(sections)| }

  /** The most sections that were open at one time. */
  ghost function HighWater(t: seq<Sdp>): nat
  {
    if t == [] then 0
    else
      var before, last := HighWater(t[..|t| - 1]), OpenCount(t[|t| - 1].sections);
      if before < last then last else before
  }

  predicate HasClosed(s: Sdp) { FirstClosed(s.sections) < |s.sections| }

  /** The data sections that were appended although a closed slot was there to take. */
  ghost function Wasted(t: seq<Sdp>, ops: seq<Op>): nat
    requires |t| > |ops|
    decreases |ops|
  {
    if ops == [] then 0
    else
      var n := |ops| - 1;
      Wasted(t, ops[..n]) + if (ops[n].SendData? || ops[n].RecvData?) && HasClosed(t[n]) then 1 else 0
  }

  lemma {:induction false} OpenCountBound(sections: seq<MediaObject>)
    ensures OpenCount(sections) <= |sections|
    ensures OpenCount(sections) == |sections| <==> FirstClosed(sections) == |sections|
  {
    if sections == [] {
    } else {
      OpenCountBound(sections[1..]);
    }
  }

  lemma {:induction false} WastedPrefix(t: seq<Sdp>, ops: seq<Op>)
    requires |t| > |ops| + 1
    ensures Wasted(t[..|t| - 1], ops) == Wasted(t, ops)
    decreases |ops|
  {
    if ops == [] {
    } else {
      WastedPrefix(t, ops[..|ops| - 1]);
    }
  }

  /** A legal call makes the table longer only when no slot is closed, or for a data section. */
  lemma GrowthIsNeeded(s: Sdp, op: Op)
    requires Coherent(s) && Defined(s, op) && Legal(s, op)
    ensures var t := Step(s, op);
            |t.sections| == |s.sections| || (HasClosed(s) && (op.SendData? || op.RecvData?))
            || (|t.sections| == |s.sections| + 1 && OpenCount(t.sections) == |t.sections|)
  {
    var t := Step(s, op);
    if op.SendMedia? || op.RecvMedia? {
      NewMediaEnters(s, op);
      EnterGrowth(s, NewObject(s, op));
    } else if op.SendData? || op.RecvData? {
      AddGrowth(s, NewObject(s, op));
    }
  }

  lemma AddGrowth(s: Sdp, o: MediaObject)
    requires !o.Closed()
    ensures |Add(s, o).sections| == |s.sections| + 1
    ensures !HasClosed(s) ==> OpenCount(Add(s, o).sections) == |s.sections| + 1
  {
    OpenCountBound(Add(s, o).sections);
  }

  lemma EnterGrowth(s: Sdp, o: MediaObject)
    requires Coherent(s) && Shaped(s) && !o.Closed()
    ensures var t := Enter(s, o);
            if HasClosed(s) then |t.sections| == |s.sections|
            else |t.sections| == |s.sections| + 1 && OpenCount(t.sections) == |t.sections|
  {
    if !HasClosed(s) { AddGrowth(s, o); }
  }

  /** The table is exactly as long as the most sections ever open at once, plus at most one for each
      data section that was appended while a closed slot was free. */
  lemma {:induction false} LengthIsHighWater(t: seq<Sdp>, ops: seq<Op>)
    requires Run(t, ops)
    ensures HighWater(t) <= |t[|ops|].sections| <= HighWater(t) + Wasted(t, ops)
    decreases |ops|
  {
    var n := |ops|;
    OpenCountBound(t[n].sections);
    assert t[..n + 1] == t;
    if n == 0 {
      assert HighWater(t) == OpenCount(t[0].sections);
    } else {
      var t', ops' := t[..n], ops[..n - 1];
      assert Run(t', ops');
      LengthIsHighWater(t', ops');
      WastedPrefix(t, ops');
      RunCoherent(t, ops, n - 1);
      StepKeepsSlots(t[n - 1], ops[n - 1]);
      GrowthIsNeeded(t[n - 1], ops[n - 1]);
    }
  }

  // ----- where a new section lands ----------------------------------------------------------

  /** The slot announced before the offer is made is where `Send` puts the answer section, also when
      the DTLS role is set in between; no other section is touched by it. */
  lemma SendLandsWhereAnnounced(s: Sdp, role: Option<string>, offer: OfferedMedia, params: RtpParams)
    requires Coherent(s)
    ensures Shaped(s)
    ensures var at := NextIdx(s);
            var s1 := if role.Some? then UpdateRole(s, role.value) else s;
            Shaped(s1) && (at.reuseMid != "" ==> s1.sections != []) &&
            var t := Send(s1, offer, at.reuseMid, params);
            && |t.sections| == |t.media| == (if at.idx < |s.sections| then |s.sections| else at.idx + 1)
            && t.sections[at.idx] == t.media[at.idx] == AnswerObject(s1.ice, s1.role, offer, params)
            && forall k :: 0 <= k < |s.sections| && k != at.idx ==> t.sections[k] == t.media[k] == s1.sections[k]
  {
  }

  /** `SendDataChannel` asks for the next slot too but always appends: the two agree exactly when no
      section is closed. */
  lemma DataLandsWhereAnnounced(s: Sdp, offer: OfferedMedia)
    ensures var t := SendSctp(s, offer);
            (NextIdx(s).idx < |t.sections| && t.sections[NextIdx(s).idx] == NewObject(s, SendData(offer)))
            <==> !HasClosed(s)
  {
  }
}
