/**
  The class `Sdp::RemoteSdp` (src/sdp/RemoteSdp.cpp), method by method, proved to follow the
  functions of `RemoteSdpModel`.
 */
module RemoteSdps {
  import opened Text
  import opened MediaSections
  import M = RemoteSdpModel

  /** The objects the sections of a vector carry. */
  ghost function Objects(sections: seq<MediaSection>): (r: seq<MediaObject>)
    reads sections
    ensures |r| == |sections| && forall i :: 0 <= i < |r| ==> r[i] == sections[i].mediaObject
  {
    seq(|sections|, i requires 0 <= i < |sections| reads sections => sections[i].mediaObject)
  }

  ghost predicate Distinct(sections: seq<MediaSection>) {
    forall i, j :: 0 <= i < j < |sections| ==> sections[i] != sections[j]
  }

  lemma ObjectsAppend(sections: seq<MediaSection>, x: MediaSection)
    requires Distinct(sections) && x !in sections
    ensures Distinct(sections + [x])
    ensures Objects(sections + [x]) == Objects(sections) + [x.mediaObject]
  {
  }

  lemma ObjectsUpdate(sections: seq<MediaSection>, i: nat, x: MediaSection)
    requires Distinct(sections) && i < |sections| && x !in sections
    ensures Distinct(sections[i := x])
    ensures Objects(sections[i := x]) == Objects(sections)[i := x.mediaObject]
  {
  }

  class RemoteSdp {
    var iceParameters: Ice
    var dtlsRole: string
    var mediaSections: seq<MediaSection>
    var midToIndex: map<string, nat>
    var firstMid: string
    // The changing fields of sdpObject.
    var media: seq<MediaObject>
    var bundleMids: string
    var sessionVersion: uint32
    var iceLite: bool

    /** The section objects: the frame of the methods that write to them. */
    ghost function Sections(): set<object>
      reads this
    {
      set s: object | s in mediaSections
    }

    ghost function State(): M.Sdp
      reads this, mediaSections
    {
      M.Sdp(iceParameters, dtlsRole, Objects(mediaSections), midToIndex, firstMid, media, bundleMids,
            sessionVersion, iceLite)
    }

    /** No section stands twice in the vector, and the calls stay inside it. */
    ghost predicate Valid()
      reads this, mediaSections
    {
      Distinct(mediaSections) && M.Shaped(State())
    }

    constructor (ice: Ice, role: string)
      ensures Valid() && State() == M.Init(ice, role) && mediaSections == []
    {
      iceParameters, dtlsRole := ice, role;
      mediaSections, midToIndex, firstMid := [], map[], "";
      media, bundleMids, sessionVersion := [], "", 0;
      iceLite := ice.lite;
    }

    method UpdateIceParameters(ice: Ice)
      requires Valid()
      modifies this, Sections()
      ensures Valid() && mediaSections == old(mediaSections)
      ensures State() == M.UpdateIce(old(State()), ice)
    {
      iceParameters := ice;
      if ice.lite {
        iceLite := true;
      }
      SetIceEverywhere(ice);
    }

    /** The loop of `UpdateIceParameters`. */
    method SetIceEverywhere(ice: Ice)
      requires Distinct(mediaSections) && |media| == |mediaSections|
      modifies this`media, Sections()
      ensures Objects(mediaSections) == media == M.AllWithIce(old(Objects(mediaSections)), ice)
    {
      ghost var was := Objects(mediaSections);
      for idx := 0 to |mediaSections|
        invariant |media| == |mediaSections|
        invariant forall i :: 0 <= i < idx ==> media[i] == mediaSections[i].mediaObject == WithIce(was[i], ice)
        invariant forall i :: idx <= i < |mediaSections| ==> mediaSections[i].mediaObject == was[i]
      {
        mediaSections[idx].SetIceParameters(ice);
        media := media[idx := mediaSections[idx].mediaObject];
      }
    }

    method UpdateDtlsRole(role: string)
      requires Valid()
      modifies this, Sections()
      ensures Valid() && mediaSections == old(mediaSections)
      ensures State() == M.UpdateRole(old(State()), role)
    {
      dtlsRole := role;
      if iceParameters.lite {
        iceLite := true;
      }
      SetRoleEverywhere(role);
    }

    /** The loop of `UpdateDtlsRole`. */
    method SetRoleEverywhere(role: string)
      requires Distinct(mediaSections) && |media| == |mediaSections|
      modifies this`media, Sections()
      ensures Objects(mediaSections) == media == M.AllWithRole(old(Objects(mediaSections)), role)
    {
      ghost var was := Objects(mediaSections);
      for idx := 0 to |mediaSections|
        invariant |media| == |mediaSections|
        invariant forall i :: 0 <= i < idx ==> media[i] == mediaSections[i].mediaObject == WithRole(was[i], role)
        invariant forall i :: idx <= i < |mediaSections| ==> mediaSections[i].mediaObject == was[i]
      {
        mediaSections[idx].SetDtlsRole(role);
        media := media[idx := mediaSections[idx].mediaObject];
      }
    }

    method GetNextMediaSectionIdx() returns (next: M.SectionIdx)
      requires Valid()
      ensures next == M.NextIdx(State())
    {
      for idx := 0 to |mediaSections|
        invariant forall i :: 0 <= i < idx ==> !mediaSections[i].mediaObject.Closed()
      {
        if mediaSections[idx].mediaObject.Closed() {
          assert M.FirstClosed(State().sections) == idx;
          return M.SectionIdx(idx, mediaSections[idx].mediaObject.mid);
        }
      }
      return M.SectionIdx(|mediaSections|, "");
    }

    method Send(offer: OfferedMedia, reuseMid: string, params: RtpParams)
      requires Valid() && (reuseMid != "" ==> mediaSections != [])
      modifies this
      ensures Valid() && fresh(Sections() - old(Sections()))
      ensures State() == M.Send(old(State()), offer, reuseMid, params)
    {
      var mediaSection := new MediaSection.Answer(iceParameters, dtlsRole, offer, params);
      if reuseMid != "" {
        ReplaceMediaSection(mediaSection, reuseMid);
      } else {
        AddMediaSection(mediaSection);
      }
    }

    method SendSctpAssociation(offer: OfferedMedia)
      requires Valid()
      modifies this
      ensures Valid() && fresh(Sections() - old(Sections()))
      ensures State() == M.SendSctp(old(State()), offer)
    {
      var mediaSection := new MediaSection.Answer(iceParameters, dtlsRole, offer, M.NO_PARAMS);
      AddMediaSection(mediaSection);
    }

    method RecvSctpAssociation()
      requires Valid()
      modifies this
      ensures Valid() && fresh(Sections() - old(Sections()))
      ensures State() == M.RecvSctp(old(State()))
    {
      var mediaSection :=
        new MediaSection.Offer(iceParameters, true, "datachannel", "application", M.NO_PARAMS, "", "");
      AddMediaSection(mediaSection);
    }

    method Receive(mid: string, kind: string, params: RtpParams, streamId: string, trackId: string)
      requires Valid()
      modifies this
      ensures Valid() && fresh(Sections() - old(Sections()))
      ensures State() == M.Receive(old(State()), mid, kind, params, streamId, trackId)
    {
      var mediaSection := new MediaSection.Offer(iceParameters, false, mid, kind, params, streamId, trackId);
      var next := GetNextMediaSectionIdx();
      if next.idx < |mediaSections| {
        ReplaceMediaSection(mediaSection, mediaSections[next.idx].mediaObject.mid);
      } else {
        AddMediaSection(mediaSection);
      }
    }

    method CloseMediaSection(mid: string)
      requires Valid() && mediaSections != []
      modifies this, Sections()
      ensures Valid() && mediaSections == old(mediaSections)
      ensures State() == M.Close(old(State()), mid)
    {
      ghost var before := State();
      var idx := IndexOf(mid);
      CloseAt(idx, mid == firstMid);
      UpdateSdp(idx);
      M.CloseShaped(before, mid);
    }

    method CloseAt(idx: nat, first: bool)
      requires Distinct(mediaSections) && idx < |mediaSections|
      modifies Sections()
      ensures var o := old(mediaSections[idx].mediaObject);
              Objects(mediaSections) ==
                old(Objects(mediaSections))[idx := if first then Disabled(o) else ClosedObject(o)]
    {
      var mediaSection := mediaSections[idx];
      if first {
        mediaSection.Disable();
      } else {
        mediaSection.Close();
      }
    }

    /** The written SDP is the session version together with the mirrored fields. */
    method GetSdp() returns (version: uint32, written: seq<MediaObject>, mids: string)
      requires Valid()
      modifies this
      ensures Valid() && mediaSections == old(mediaSections)
      ensures State() == M.Render(old(State()))
      ensures version == State().version && written == State().media && mids == State().bundle
    {
      sessionVersion := (sessionVersion + 1) % UINT32;
      return sessionVersion, media, bundleMids;
    }

    method AddMediaSection(section: MediaSection)
      requires Valid() && section !in mediaSections
      modifies this
      ensures Valid() && mediaSections == old(mediaSections) + [section]
      ensures State() == M.Add(old(State()), section.mediaObject)
    {
      ghost var before := State();
      if firstMid == "" {
        firstMid := section.mediaObject.mid;
      }
      ObjectsAppend(mediaSections, section);
      mediaSections := mediaSections + [section];
      midToIndex := midToIndex[section.mediaObject.mid := |mediaSections| - 1];
      media := media + [section.mediaObject];
      RegenerateBundleMids();
      M.AddShaped(before, section.mediaObject);
    }

    method ReplaceMediaSection(section: MediaSection, reuseMid: string)
      requires Valid() && section !in mediaSections && mediaSections != []
      modifies this
      ensures Valid() && Sections() <= old(Sections()) + {section}
      ensures State() == M.Replace(old(State()), section.mediaObject, reuseMid)
    {
      if reuseMid != "" {
        ReplaceInSlot(section, reuseMid);
      } else {
        ReplaceByOwnMid(section);
      }
    }

    /** The branch of `ReplaceMediaSection` with a mid to reuse. */
    method ReplaceInSlot(section: MediaSection, reuseMid: string)
      requires Valid() && section !in mediaSections && mediaSections != [] && reuseMid != ""
      modifies this
      ensures Valid() && mediaSections == old(mediaSections)[M.At(old(midToIndex), reuseMid) := section]
      ensures State() == M.Replace(old(State()), section.mediaObject, reuseMid)
    {
      ghost var before := State();
      var idx := TakeSlot(section, reuseMid);
      UpdateSdp(idx);
      M.ReplaceShaped(before, section.mediaObject, reuseMid);
    }

    /** Puts the section into the slot of the mid and moves the index over to its own mid. */
    method TakeSlot(section: MediaSection, reuseMid: string) returns (idx: nat)
      requires Distinct(mediaSections) && section !in mediaSections
      requires M.At(midToIndex, reuseMid) < |mediaSections|
      modifies this`midToIndex, this`mediaSections
      ensures idx == M.At(old(midToIndex), reuseMid)
      ensures mediaSections == old(mediaSections)[idx := section] && Distinct(mediaSections)
      ensures Objects(mediaSections) == old(Objects(mediaSections))[idx := section.mediaObject]
      ensures midToIndex == (M.Touch(old(midToIndex), reuseMid)
                             - {old(mediaSections[M.At(midToIndex, reuseMid)].mediaObject.mid)})
                            [section.mediaObject.mid := idx]
    {
      idx := IndexOf(reuseMid);
      var oldMediaSection := mediaSections[idx];
      PutSection(idx, section);
      midToIndex := (midToIndex - {oldMediaSection.mediaObject.mid})[section.mediaObject.mid := idx];
    }

    method PutSection(idx: nat, section: MediaSection)
      requires Distinct(mediaSections) && section !in mediaSections && idx < |mediaSections|
      modifies this`mediaSections
      ensures mediaSections == old(mediaSections)[idx := section] && Distinct(mediaSections)
      ensures Objects(mediaSections) == old(Objects(mediaSections))[idx := section.mediaObject]
    {
      ObjectsUpdate(mediaSections, idx, section);
      mediaSections := mediaSections[idx := section];
    }

    /** The branch without one: it mirrors the new section in the last place. */
    method ReplaceByOwnMid(section: MediaSection)
      requires Valid() && section !in mediaSections && mediaSections != []
      modifies this
      ensures Valid() && Sections() <= old(Sections()) + {section}
      ensures State() == M.Replace(old(State()), section.mediaObject, "")
    {
      ghost var before := State();
      var idx := IndexOf(section.mediaObject.mid);
      PutSection(idx, section);
      media := media[|mediaSections| - 1 := section.mediaObject];
      M.ReplaceShaped(before, section.mediaObject, "");
    }

    /** `this->midToIndex[mid]`. */
    method IndexOf(mid: string) returns (idx: nat)
      modifies this`midToIndex
      ensures midToIndex == M.Touch(old(midToIndex), mid)
      ensures idx == M.At(old(midToIndex), mid)
    {
      if mid !in midToIndex {
        midToIndex := midToIndex[mid := 0];
      }
      idx := midToIndex[mid];
    }

    /** Mirrors section `idx` and its BUNDLE membership in the SDP object. */
    method UpdateSdp(idx: nat)
      requires idx < |media| == |mediaSections|
      modifies this`media, this`bundleMids
      ensures media == old(media)[idx := mediaSections[idx].mediaObject]
      ensures bundleMids == M.Bundle("", Objects(mediaSections))
    {
      media := media[idx := mediaSections[idx].mediaObject];
      RegenerateBundleMids();
    }

    method RegenerateBundleMids()
      modifies this`bundleMids
      ensures bundleMids == M.Bundle("", Objects(mediaSections))
    {
      var mids := "";
      ghost var objects := Objects(mediaSections);
      for i := 0 to |mediaSections|
        invariant M.Bundle(mids, objects[i..]) == M.Bundle("", objects)
      {
        assert objects[i..][1..] == objects[i + 1..];
        if !mediaSections[i].mediaObject.Closed() {
          if mids == "" {
            mids := mediaSections[i].mediaObject.mid;
          } else {
            mids := mids + " " + mediaSections[i].mediaObject.mid;
          }
        }
      }
      bundleMids := mids;
    }
  }
}
