/**
  RTP parameters as JSON: the validator of src/ortc.cpp that `SendTransport::Produce` and `canReceive` run,
  and the parameters `SendHandler::Send` puts together (src/Handler.cpp).
 */
module RtpParameters {
  import opened Text
  import opened Validators
  import opened Ortc
  import opened OrtcParams
  import opened OrtcSending
  import opened OrtcJson
  import Ssrc

  // ----- the validator ------------------------------------------------------------------------

  function ValidateCodecParams(j: Json): Result<Json>
  {
    if !j.Obj? then Err("codec is not an object")
    else if "mimeType" !in j.o || !j.o["mimeType"].Str? then Err("missing codec.mimeType")
    else match MimeKind(j.o["mimeType"].s)
      case None => Err("invalid codec.mimeType")
      case Some(kind) =>
        if "payloadType" !in j.o || !j.o["payloadType"].Int? then Err("missing codec.payloadType")
        else if "clockRate" !in j.o || !j.o["clockRate"].Int? then Err("missing codec.clockRate")
        else
          var o := Defaulted(j.o, kind);
          if !ValidParameters(o["parameters"].o) then Err("invalid codec parameter")
          else match ValidateAll(o["rtcpFeedback"].a, ValidateFeedback)
            case Err(e) => Err(e)
            case Ok(fbs) => Ok(Obj(o["rtcpFeedback" := Arr(fbs)]))
  }

  predicate IsExtParameter(v: Json) { v.Str? || v.Int? || v.Float? }

  function ValidateExtParams(j: Json): Result<Json>
  {
    if !j.Obj? then Err("ext is not an object")
    else if "uri" !in j.o || !j.o["uri"].Str? || j.o["uri"].s == "" then Err("missing ext.uri")
    else if "id" !in j.o || !j.o["id"].Int? then Err("missing ext.id")
    else if "encrypt" in j.o && !j.o["encrypt"].Bool? then Err("invalid ext.encrypt")
    else
      var o1 := if "encrypt" in j.o then j.o else j.o["encrypt" := Bool(false)];
      var o2 := if "parameters" !in o1 || !o1["parameters"].Obj? then o1["parameters" := Obj(map[])] else o1;
      if forall key :: key in o2["parameters"].o ==> IsExtParameter(o2["parameters"].o[key]) then Ok(Obj(o2))
      else Err("invalid header extension parameter")
  }

  predicate TextIfPresent(o: map<string, Json>, key: string) { key in o ==> o[key].Str? && o[key].s != "" }

  function ValidateEncoding(j: Json): Result<Json>
  {
    if !j.Obj? then Err("encoding is not an object")
    else if "ssrc" in j.o && !j.o["ssrc"].Int? then Err("invalid encoding.ssrc")
    else if !TextIfPresent(j.o, "rid") then Err("invalid encoding.rid")
    else if "rtx" in j.o && !j.o["rtx"].Obj? then Err("invalid encoding.rtx")
    else if "rtx" in j.o && ("ssrc" !in j.o["rtx"].o || !j.o["rtx"].o["ssrc"].Int?)
    then Err("missing encoding.rtx.ssrc")
    else
      var o := if "dtx" !in j.o || !j.o["dtx"].Bool? then j.o["dtx" := Bool(false)] else j.o;
      if !TextIfPresent(o, "scalabilityMode") then Err("invalid encoding.scalabilityMode") else Ok(Obj(o))
  }

  function ValidateRtcp(j: Json): Result<Json>
  {
    if !j.Obj? then Err("rtcp is not an object")
    else if "cname" in j.o && !j.o["cname"].Str? then Err("invalid rtcp.cname")
    else Ok(Obj(if "reducedSize" !in j.o || !j.o["reducedSize"].Bool? then j.o["reducedSize" := Bool(true)] else j.o))
  }

  /** The `rtcp` field: absent means empty. */
  function RtcpField(o: map<string, Json>): Json { if "rtcp" in o then o["rtcp"] else Obj(map[]) }

  /** `validateRtpParameters`. */
  function ValidateParams(j: Json): Result<Json>
  {
    if !j.Obj? then Err("params is not an object")
    else if !TextIfPresent(j.o, "mid") then Err("params.mid is not a string")
    else if "codecs" !in j.o || !j.o["codecs"].Arr? then Err("missing params.codecs")
    else match ValidateAll(j.o["codecs"].a, ValidateCodecParams)
      case Err(e) => Err(e)
      case Ok(codecs) =>
        if !ArrayField(j.o, "headerExtensions").Arr? then Err("params.headerExtensions is not an array")
        else match ValidateAll(ArrayField(j.o, "headerExtensions").a, ValidateExtParams)
          case Err(e) => Err(e)
          case Ok(exts) =>
            if !ArrayField(j.o, "encodings").Arr? then Err("params.encodings is not an array")
            else match ValidateAll(ArrayField(j.o, "encodings").a, ValidateEncoding)
              case Err(e) => Err(e)
              case Ok(encodings) =>
                if !RtcpField(j.o).Obj? then Err("params.rtcp is not an object")
                else match ValidateRtcp(RtcpField(j.o))
                  case Err(e) => Err(e)
                  case Ok(rtcp) => Ok(Obj(WithValidated(j.o, codecs, exts, encodings, rtcp)))
  }

  function WithValidated(
    o: map<string, Json>, codecs: seq<Json>, exts: seq<Json>, encodings: seq<Json>, rtcp: Json): map<string, Json>
  {
    o["codecs" := Arr(codecs)]["headerExtensions" := Arr(exts)]["encodings" := Arr(encodings)]["rtcp" := rtcp]
  }

  // ----- validating twice -----------------------------------------------------------------------

  /** A codec object that has every mandatory field and every default. */
  predicate FilledParams(v: map<string, Json>) {
    && "mimeType" in v && v["mimeType"].Str? && MimeKind(v["mimeType"].s).Some?
    && "payloadType" in v && v["payloadType"].Int? && "clockRate" in v && v["clockRate"].Int?
    && (if MimeKind(v["mimeType"].s) == Some("audio") then "channels" in v && v["channels"].Int? else "channels" !in v)
    && "parameters" in v && v["parameters"].Obj? && ValidParameters(v["parameters"].o)
    && "rtcpFeedback" in v && v["rtcpFeedback"].Arr?
    && forall i :: 0 <= i < |v["rtcpFeedback"].a| ==>
         ValidateFeedback(v["rtcpFeedback"].a[i]) == Ok(v["rtcpFeedback"].a[i])
  }

  lemma DefaultedKeeps(o: map<string, Json>, kind: string)
    ensures var d := Defaulted(o, kind);
            && (forall key :: key !in {"channels", "parameters", "rtcpFeedback"} ==>
                  (key in d <==> key in o) && (key in o ==> d[key] == o[key]))
            && (if kind == "audio" then "channels" in d && d["channels"].Int? else "channels" !in d)
            && "parameters" in d && d["parameters"].Obj? && "rtcpFeedback" in d && d["rtcpFeedback"].Arr?
  {
  }

  lemma ValidatedParamsFilled(j: Json)
    requires ValidateCodecParams(j).Ok?
    ensures ValidateCodecParams(j).value.Obj? && FilledParams(ValidateCodecParams(j).value.o)
  {
    var kind := MimeKind(j.o["mimeType"].s).value;
    DefaultedKeeps(j.o, kind);
    var before := Defaulted(j.o, kind)["rtcpFeedback"].a;
    var fbs := ValidateAll(before, ValidateFeedback).value;
    forall i | 0 <= i < |fbs| ensures ValidateFeedback(fbs[i]) == Ok(fbs[i]) {
      assert ValidateFeedback(before[i]) == Ok(fbs[i]);
    }
  }

  lemma FilledParamsFixed(v: map<string, Json>)
    requires FilledParams(v)
    ensures ValidateCodecParams(Obj(v)) == Ok(Obj(v))
  {
    ValidateAllFixed(v["rtcpFeedback"].a, ValidateFeedback);
    assert "channels" !in v ==> v - {"channels"} == v;
    assert Defaulted(v, MimeKind(v["mimeType"].s).value) == v;
    assert v["rtcpFeedback" := Arr(v["rtcpFeedback"].a)] == v;
  }

  lemma CodecsFixed(a: seq<Json>)
    requires ValidateAll(a, ValidateCodecParams).Ok?
    ensures var v := ValidateAll(a, ValidateCodecParams).value; ValidateAll(v, ValidateCodecParams) == Ok(v)
  {
    var v := ValidateAll(a, ValidateCodecParams).value;
    forall i | 0 <= i < |v| ensures ValidateCodecParams(v[i]) == Ok(v[i]) {
      ValidatedParamsFilled(a[i]);
      FilledParamsFixed(v[i].o);
    }
    ValidateAllFixed(v, ValidateCodecParams);
  }

  lemma ExtsFixed(a: seq<Json>)
    requires ValidateAll(a, ValidateExtParams).Ok?
    ensures var v := ValidateAll(a, ValidateExtParams).value; ValidateAll(v, ValidateExtParams) == Ok(v)
  {
    var v := ValidateAll(a, ValidateExtParams).value;
    forall i | 0 <= i < |v| ensures ValidateExtParams(v[i]) == Ok(v[i]) {
      assert ValidateExtParams(a[i]) == Ok(v[i]);
    }
    ValidateAllFixed(v, ValidateExtParams);
  }

  lemma EncodingsFixed(a: seq<Json>)
    requires ValidateAll(a, ValidateEncoding).Ok?
    ensures var v := ValidateAll(a, ValidateEncoding).value; ValidateAll(v, ValidateEncoding) == Ok(v)
  {
    var v := ValidateAll(a, ValidateEncoding).value;
    forall i | 0 <= i < |v| ensures ValidateEncoding(v[i]) == Ok(v[i]) {
      assert ValidateEncoding(a[i]) == Ok(v[i]);
    }
    ValidateAllFixed(v, ValidateEncoding);
  }

  /** Validating RTP parameters is idempotent; so the probator, which validates the parameters of a
      consumer again, never fails on them. */
  lemma ValidateParamsTwice(j: Json)
    requires ValidateParams(j).Ok?
    ensures ValidateParams(ValidateParams(j).value) == ValidateParams(j)
  {
    var o := j.o;
    CodecsFixed(o["codecs"].a);
    ExtsFixed(ArrayField(o, "headerExtensions").a);
    EncodingsFixed(ArrayField(o, "encodings").a);
    var codecs := ValidateAll(o["codecs"].a, ValidateCodecParams).value;
    var exts := ValidateAll(ArrayField(o, "headerExtensions").a, ValidateExtParams).value;
    var encodings := ValidateAll(ArrayField(o, "encodings").a, ValidateEncoding).value;
    var rtcp := ValidateRtcp(RtcpField(o)).value;
    ValidatedTwice(o, codecs, exts, encodings, rtcp);
    assert ValidateRtcp(rtcp) == Ok(rtcp);
  }

  lemma ValidatedTwice(o: map<string, Json>, codecs: seq<Json>, exts: seq<Json>, encodings: seq<Json>, rtcp: Json)
    ensures var v := WithValidated(o, codecs, exts, encodings, rtcp);
            && WithValidated(v, codecs, exts, encodings, rtcp) == v
            && v["codecs"] == Arr(codecs) && v["headerExtensions"] == Arr(exts) && v["encodings"] == Arr(encodings)
            && v["rtcp"] == rtcp && ("mid" in v <==> "mid" in o) && ("mid" in o ==> v["mid"] == o["mid"])
  {
  }

  // ----- what Send puts together ------------------------------------------------------------------

  /** A missing payload type was copied as null. */
  function CodecParamsJson(c: Codec): Json
  {
    var o := map[
      "mimeType" := Str(c.mimeType),
      "payloadType" := if c.payloadType.Some? then Int(c.payloadType.value) else Null,
      "clockRate" := Int(c.clockRate),
      "parameters" := Obj(c.parameters),
      "rtcpFeedback" := Arr(FbsJson(c.feedback))];
    Obj(if c.channels.Some? then o["channels" := Int(c.channels.value)] else o)
  }

  function ExtParamsJson(x: SendExt): Json
  {
    Obj(map["uri" := Str(x.uri), "id" := Int(x.id), "encrypt" := Bool(x.encrypt), "parameters" := Obj(map[])])
  }

  /** An encoding read from the offer. */
  function EncodingJson(e: Ssrc.Encoding): map<string, Json>
  {
    var o := map["ssrc" := Int(e.ssrc)];
    if e.rtx.Some? then o["rtx" := Obj(map["ssrc" := Int(e.rtx.value)])] else o
  }

  /** An encoding given by the application: the fields that `Produce` passes on. */
  datatype Given = Given(
    active: bool, maxBitrate: Option<int>, maxFramerate: Option<real>, scaleResolutionDownBy: Option<real>,
    scalabilityMode: Option<string>, networkPriority: int)

  /** The fields that the validator does not look at. */
  function FillUnchecked(o: map<string, Json>, g: Given): map<string, Json>
  {
    var o1 := o["active" := Bool(g.active)];
    var o2 := if g.maxBitrate.Some? then o1["maxBitrate" := Int(g.maxBitrate.value)] else o1;
    var o3 := if g.maxFramerate.Some? then o2["maxFramerate" := Float(g.maxFramerate.value)] else o2;
    var o4 := if g.scaleResolutionDownBy.Some?
              then o3["scaleResolutionDownBy" := Float(g.scaleResolutionDownBy.value)] else o3;
    o4["networkPriority" := Int(g.networkPriority)]
  }

  /** `fillJsonRtpEncodingParameters`. */
  function Fill(o: map<string, Json>, g: Given, rid: string): map<string, Json>
  {
    var o1 := if rid != "" then o["rid" := Str(rid)] else o;
    var o2 := if g.scalabilityMode.Some? then o1["scalabilityMode" := Str(g.scalabilityMode.value)] else o1;
    FillUnchecked(o2, g)
  }

  /** The identifier `Send` gives to one of several encodings; its counter has 8 bits. */
  function Rid(i: nat): string { "r" + Decimal(i % 256) }

  /** With one given encoding the code fills the first offered one unchecked. */
  predicate Fillable(offered: seq<Ssrc.Encoding>, given: seq<Given>) { |given| == 1 ==> offered != [] }

  /** The encodings of a sender: those of its offer; those with the first completed by the one that is given,
      or that one alone (`svc`, VP9 with spatial layers); or the several that are given. */
  function SentEncodings(offered: seq<Ssrc.Encoding>, given: seq<Given>, svc: bool): (r: seq<map<string, Json>>)
    requires Fillable(offered, given)
    ensures |r| == if |given| > 1 then |given| else if |given| == 1 && svc then 1 else |offered|
  {
    if |given| > 1 then seq(|given|, i requires 0 <= i < |given| => Fill(map[], given[i], Rid(i)))
    else
      var all := seq(|offered|, i requires 0 <= i < |offered| => EncodingJson(offered[i]));
      if given == [] then all
      else
        var filled := all[0 := Fill(all[0], given[0], "")];
        if svc then filled[..1] else filled
  }

  /** What a given encoding says ends up in the object under these names, and what the offer said stays. */
  lemma FillSays(o: map<string, Json>, g: Given, rid: string)
    ensures var v := Fill(o, g, rid);
            && "active" in v && v["active"] == Bool(g.active)
            && "networkPriority" in v && v["networkPriority"] == Int(g.networkPriority)
            && (g.maxBitrate.Some? ==> "maxBitrate" in v && v["maxBitrate"] == Int(g.maxBitrate.value))
            && (g.maxFramerate.Some? ==> "maxFramerate" in v && v["maxFramerate"] == Float(g.maxFramerate.value))
            && (g.scaleResolutionDownBy.Some? ==>
                  "scaleResolutionDownBy" in v && v["scaleResolutionDownBy"] == Float(g.scaleResolutionDownBy.value))
            && (g.scalabilityMode.Some? ==>
                  "scalabilityMode" in v && v["scalabilityMode"] == Str(g.scalabilityMode.value))
            && (rid != "" ==> "rid" in v && v["rid"] == Str(rid))
            && ("ssrc" in o ==> "ssrc" in v && v["ssrc"] == o["ssrc"])
            && ("rtx" in o ==> "rtx" in v && v["rtx"] == o["rtx"])
  {
  }

  lemma EncodingSays(e: Ssrc.Encoding)
    ensures var v := EncodingJson(e);
            && "ssrc" in v && v["ssrc"] == Int(e.ssrc)
            && ("rtx" in v <==> e.rtx.Some?)
            && (e.rtx.Some? ==> v["rtx"].Obj? && "ssrc" in v["rtx"].o && v["rtx"].o["ssrc"] == Int(e.rtx.value))
  {
  }

  /** More than one stream of a codec that needs the mode spelt out. */
  predicate Scalable(codecs: seq<Codec>, streams: nat)
    requires codecs != []
  {
    streams > 1 && (Lower(codecs[0].mimeType) == "video/vp8" || Lower(codecs[0].mimeType) == "video/h264")
  }

  /** With effective simulcast every encoding gets a scalability mode. */
  function Spelt(o: map<string, Json>, scalable: bool): Json
  {
    Obj(if scalable then o["scalabilityMode" := Str("S1T3")] else o)
  }

  /** The parameters of a sender. */
  function SendJson(
    mid: string, codecs: seq<Codec>, exts: seq<SendExt>, encodings: seq<map<string, Json>>, cname: string): Json
    requires codecs != []
  {
    var scalable := Scalable(codecs, |encodings|);
    Obj(map[
      "mid" := Str(mid),
      "codecs" := Arr(CodecList(codecs)),
      "headerExtensions" := Arr(ExtList(exts)),
      "encodings" := Arr(EncodingList(encodings, scalable)),
      "rtcp" := Obj(map["cname" := Str(cname)])])
  }

  function CodecList(codecs: seq<Codec>): (a: seq<Json>)
    ensures |a| == |codecs| && forall i :: 0 <= i < |a| ==> a[i] == CodecParamsJson(codecs[i])
  {
    seq(|codecs|, i requires 0 <= i < |codecs| => CodecParamsJson(codecs[i]))
  }

  function ExtList(exts: seq<SendExt>): (a: seq<Json>)
    ensures |a| == |exts| && forall i :: 0 <= i < |a| ==> a[i] == ExtParamsJson(exts[i])
  {
    seq(|exts|, i requires 0 <= i < |exts| => ExtParamsJson(exts[i]))
  }

  function EncodingList(encodings: seq<map<string, Json>>, scalable: bool): (a: seq<Json>)
    ensures |a| == |encodings| && forall i :: 0 <= i < |a| ==> a[i] == Spelt(encodings[i], scalable)
  {
    seq(|encodings|, i requires 0 <= i < |encodings| => Spelt(encodings[i], scalable))
  }

  lemma CodecParamsFields(c: Codec)
    ensures var o := CodecParamsJson(c).o;
            && "mimeType" in o && o["mimeType"] == Str(c.mimeType)
            && "payloadType" in o && (o["payloadType"].Int? <==> c.payloadType.Some?)
            && (c.payloadType.Some? ==> o["payloadType"] == Int(c.payloadType.value))
            && ("channels" in o <==> c.channels.Some?) && (c.channels.Some? ==> o["channels"] == Int(c.channels.value))
            && "clockRate" in o && o["clockRate"] == Int(c.clockRate)
            && "parameters" in o && o["parameters"] == Obj(c.parameters)
            && "rtcpFeedback" in o && o["rtcpFeedback"] == Arr(FbsJson(c.feedback))
  {
  }

  /** A written codec passes exactly when it has a payload type. */
  lemma CodecParamsPassIff(c: Codec)
    requires Acceptable(c)
    ensures ValidateCodecParams(CodecParamsJson(c)).Ok? <==> c.payloadType.Some?
  {
    CodecParamsFields(c);
    ValidateAllFixed(FbsJson(c.feedback), ValidateFeedback);
  }

  /** What the validator looks at before the scalability mode. */
  predicate Streamed(o: map<string, Json>) {
    && ("ssrc" in o ==> o["ssrc"].Int?) && TextIfPresent(o, "rid")
    && ("rtx" in o ==> o["rtx"].Obj? && "ssrc" in o["rtx"].o && o["rtx"].o["ssrc"].Int?)
  }

  lemma EncodingPassesIff(o: map<string, Json>, scalable: bool)
    requires Streamed(o)
    ensures ValidateEncoding(Spelt(o, scalable)).Ok? <==> scalable || TextIfPresent(o, "scalabilityMode")
  {
  }

  lemma UncheckedStays(o: map<string, Json>, key: string, v: Json)
    requires key !in {"ssrc", "rid", "rtx", "scalabilityMode"}
    ensures Streamed(o[key := v]) <==> Streamed(o)
    ensures TextIfPresent(o[key := v], "scalabilityMode") <==> TextIfPresent(o, "scalabilityMode")
  {
  }

  lemma FillUncheckedStays(o: map<string, Json>, g: Given)
    ensures Streamed(FillUnchecked(o, g)) <==> Streamed(o)
    ensures TextIfPresent(FillUnchecked(o, g), "scalabilityMode") <==> TextIfPresent(o, "scalabilityMode")
  {
    var o1 := o["active" := Bool(g.active)];
    UncheckedStays(o, "active", Bool(g.active));
    var o2 := o1;
    if g.maxBitrate.Some? {
      o2 := o1["maxBitrate" := Int(g.maxBitrate.value)];
      UncheckedStays(o1, "maxBitrate", Int(g.maxBitrate.value));
    }
    var o3 := o2;
    if g.maxFramerate.Some? {
      o3 := o2["maxFramerate" := Float(g.maxFramerate.value)];
      UncheckedStays(o2, "maxFramerate", Float(g.maxFramerate.value));
    }
    var o4 := o3;
    if g.scaleResolutionDownBy.Some? {
      o4 := o3["scaleResolutionDownBy" := Float(g.scaleResolutionDownBy.value)];
      UncheckedStays(o3, "scaleResolutionDownBy", Float(g.scaleResolutionDownBy.value));
    }
    UncheckedStays(o4, "networkPriority", Int(g.networkPriority));
  }

  /** A given scalability mode is not empty. */
  predicate ModeSpelt(g: Given) { g.scalabilityMode != Some("") }

  lemma FillPasses(o: map<string, Json>, g: Given, rid: string)
    requires Streamed(o) && "scalabilityMode" !in o
    ensures Streamed(Fill(o, g, rid))
    ensures TextIfPresent(Fill(o, g, rid), "scalabilityMode") <==> ModeSpelt(g)
  {
    var o1 := if rid != "" then o["rid" := Str(rid)] else o;
    var o2 := if g.scalabilityMode.Some? then o1["scalabilityMode" := Str(g.scalabilityMode.value)] else o1;
    assert Streamed(o2) && (TextIfPresent(o2, "scalabilityMode") <==> ModeSpelt(g));
    FillUncheckedStays(o2, g);
  }

  lemma OfferedPasses(e: Ssrc.Encoding)
    ensures Streamed(EncodingJson(e)) && "scalabilityMode" !in EncodingJson(e)
  {
  }

  predicate AllModesSpelt(given: seq<Given>) { forall i :: 0 <= i < |given| ==> ModeSpelt(given[i]) }

  predicate AllStreamed(encodings: seq<map<string, Json>>) {
    forall i :: 0 <= i < |encodings| ==> Streamed(encodings[i])
  }

  predicate AllModesPass(encodings: seq<map<string, Json>>) {
    forall i :: 0 <= i < |encodings| ==> TextIfPresent(encodings[i], "scalabilityMode")
  }

  lemma ManyEncodingsPass(offered: seq<Ssrc.Encoding>, given: seq<Given>, svc: bool)
    requires |given| > 1
    ensures var sent := SentEncodings(offered, given, svc);
            AllStreamed(sent) && (AllModesPass(sent) <==> AllModesSpelt(given))
  {
    var sent := SentEncodings(offered, given, svc);
    forall i | 0 <= i < |given|
      ensures Streamed(sent[i]) && (TextIfPresent(sent[i], "scalabilityMode") <==> ModeSpelt(given[i]))
    {
      FillPasses(map[], given[i], Rid(i));
    }
  }

  lemma FewEncodingsPass(offered: seq<Ssrc.Encoding>, given: seq<Given>, svc: bool)
    requires Fillable(offered, given) && |given| <= 1
    ensures var sent := SentEncodings(offered, given, svc);
            AllStreamed(sent) && (AllModesPass(sent) <==> AllModesSpelt(given))
  {
    var sent := SentEncodings(offered, given, svc);
    forall i | 0 <= i < |sent| && (i > 0 || given == [])
      ensures Streamed(sent[i]) && TextIfPresent(sent[i], "scalabilityMode")
    {
      assert sent[i] == EncodingJson(offered[i]);
      OfferedPasses(offered[i]);
    }
    if |given| == 1 {
      OfferedPasses(offered[0]);
      FillPasses(EncodingJson(offered[0]), given[0], "");
      assert sent[0] == Fill(EncodingJson(offered[0]), given[0], "");
    }
  }

  lemma ExtParamsPass(x: SendExt)
    requires x.uri != ""
    ensures ValidateExtParams(ExtParamsJson(x)).Ok?
  {
  }

  lemma CodecListPassesIff(codecs: seq<Codec>)
    requires AllAcceptableCodecs(codecs)
    ensures ValidateAll(CodecList(codecs), ValidateCodecParams).Ok? <==> Numbered(codecs)
  {
    forall i | 0 <= i < |codecs|
      ensures ValidateCodecParams(CodecList(codecs)[i]).Ok? <==> codecs[i].payloadType.Some?
    {
      CodecParamsPassIff(codecs[i]);
    }
  }

  lemma ExtListPasses(exts: seq<SendExt>)
    requires forall i :: 0 <= i < |exts| ==> exts[i].uri != ""
    ensures ValidateAll(ExtList(exts), ValidateExtParams).Ok?
  {
    forall i | 0 <= i < |exts| ensures ValidateExtParams(ExtList(exts)[i]).Ok? {
      ExtParamsPass(exts[i]);
    }
  }

  lemma EncodingListPassesIff(encodings: seq<map<string, Json>>, scalable: bool)
    requires AllStreamed(encodings)
    ensures ValidateAll(EncodingList(encodings, scalable), ValidateEncoding).Ok? <==>
            scalable || AllModesPass(encodings)
  {
    var list := EncodingList(encodings, scalable);
    forall i | 0 <= i < |encodings|
      ensures ValidateEncoding(list[i]).Ok? <==> scalable || TextIfPresent(encodings[i], "scalabilityMode")
    {
      EncodingPassesIff(encodings[i], scalable);
    }
  }

  /** The three lists and the texts that the parameters consist of. */
  predicate ConsistsOf(o: map<string, Json>, codecs: seq<Json>, exts: seq<Json>, encodings: seq<Json>) {
    && "mid" in o && o["mid"].Str? && "codecs" in o && o["codecs"] == Arr(codecs)
    && "headerExtensions" in o && o["headerExtensions"] == Arr(exts)
    && "encodings" in o && o["encodings"] == Arr(encodings)
    && "rtcp" in o && o["rtcp"].Obj? && "cname" in o["rtcp"].o && o["rtcp"].o["cname"].Str?
  }

  lemma SendJsonFields(
    mid: string, codecs: seq<Codec>, exts: seq<SendExt>, encodings: seq<map<string, Json>>, cname: string)
    requires codecs != []
    ensures var o := SendJson(mid, codecs, exts, encodings, cname).o;
            && ConsistsOf(o, CodecList(codecs), ExtList(exts), EncodingList(encodings, Scalable(codecs, |encodings|)))
            && o["mid"].s == mid
  {
  }

  lemma ParamsPassIff(o: map<string, Json>, codecs: seq<Json>, exts: seq<Json>, encodings: seq<Json>)
    requires ConsistsOf(o, codecs, exts, encodings)
    ensures ValidateParams(Obj(o)).Ok? <==>
            && o["mid"].s != "" && ValidateAll(codecs, ValidateCodecParams).Ok?
            && ValidateAll(exts, ValidateExtParams).Ok? && ValidateAll(encodings, ValidateEncoding).Ok?
  {
  }

  lemma SendJsonPassesIff(
    mid: string, codecs: seq<Codec>, exts: seq<SendExt>, encodings: seq<map<string, Json>>, cname: string)
    requires codecs != [] && AllAcceptableCodecs(codecs) && forall i :: 0 <= i < |exts| ==> exts[i].uri != ""
    requires AllStreamed(encodings)
    ensures ValidateParams(SendJson(mid, codecs, exts, encodings, cname)).Ok? <==>
            mid != "" && Numbered(codecs) && (Scalable(codecs, |encodings|) || AllModesPass(encodings))
  {
    var scalable := Scalable(codecs, |encodings|);
    CodecListPassesIff(codecs);
    ExtListPasses(exts);
    EncodingListPassesIff(encodings, scalable);
    SendJsonFields(mid, codecs, exts, encodings, cname);
    ParamsPassIff(SendJson(mid, codecs, exts, encodings, cname).o, CodecList(codecs), ExtList(exts),
                  EncodingList(encodings, scalable));
  }

  // ----- the send closure -------------------------------------------------------------------------

  lemma {:induction false} SendCodecsAcceptable(kind: string, all: seq<ExtCodec>)
    requires AllGood(all)
    ensures var l := SendCodecs(kind, all);
            AllAcceptableCodecs(l) && (l != [] ==> (Numbered(l) <==> l[0].payloadType.Some?))
  {
    if all == [] {
    } else if all[0].kind != kind {
      SendCodecsAcceptable(kind, all[1..]);
    } else {
      assert Good(all[0]);
      RtxMimeOfKind(all[0].mimeType, all[0].kind);
    }
  }

  lemma {:induction false} SendExtsNamed(kind: string, all: seq<ExtExt>)
    requires DirectedFor(all, kind) && AllNamed(all)
    ensures forall i :: 0 <= i < |SendExts(kind, all)| ==> SendExts(kind, all)[i].uri != ""
    decreases |all|
  {
    if all == [] {
    } else {
      SendExtsNamed(kind, all[..|all| - 1]);
      assert Named(all[|all| - 1].kind, all[|all| - 1].uri);
    }
  }

  /** A successful reduction of sending parameters picks all of them. */
  lemma ReductionPicksAll(l: seq<Codec>, cap: Option<Codec>)
    requires |l| <= 2 && (forall i :: 0 <= i < |l| ==> (IsRtx(l[i]) <==> i == 1)) && Reduce(l, cap).Picked?
    ensures Reduce(l, cap).codecs == l
  {
  }

  /** What a sender sends: the SSRC lines of its offer and the encodings given by the application. Unless
      several are given the lines must be readable, or the code throws. */
  datatype Streams = Streams(info: Ssrc.SsrcInfo, given: seq<Given>, svc: bool)

  predicate Described(x: Streams) {
    |x.given| <= 1 ==>
      Ssrc.Readable(Ssrc.GroupsOf(x.info)) && Ssrc.Encodings(x.info).Ok?
      && Fillable(Ssrc.Encodings(x.info).value, x.given)
  }

  function EncodingsOf(x: Streams): seq<map<string, Json>>
    requires Described(x)
  {
    SentEncodings(if |x.given| <= 1 then Ssrc.Encodings(x.info).value else [], x.given, x.svc)
  }

  lemma EncodingsOfPass(x: Streams)
    requires Described(x)
    ensures AllStreamed(EncodingsOf(x)) && (AllModesPass(EncodingsOf(x)) <==> AllModesSpelt(x.given))
  {
    if |x.given| <= 1 {
      FewEncodingsPass(Ssrc.Encodings(x.info).value, x.given, x.svc);
    } else {
      ManyEncodingsPass([], x.given, x.svc);
    }
  }

  /** The send-side closure: for any two JSON capability sets that validate and negotiate, the parameters a
      sender puts together from them, from the SSRC lines of its offer and from the encodings it is given
      pass the validator that `Produce` runs, exactly when the mid is not empty, the sent codec has a local
      payload type, and no given scalability mode is empty or all are replaced. */
  lemma SendClosure(
    kind: string, localJson: Json, remoteJson: Json, h264: H264, cap: Option<Codec>,
    mid: string, x: Streams, cname: string)
    requires ValidateCaps(localJson).Ok? && ValidateCaps(remoteJson).Ok? && Described(x)
    ensures FilledCaps(ValidateCaps(localJson).value) && FilledCaps(ValidateCaps(remoteJson).value)
    ensures var local, remote := CapsOf(ValidateCaps(localJson).value), CapsOf(ValidateCaps(remoteJson).value);
            Sendable(kind, local, remote, h264) ==> SendCloses(kind, local, remote, h264, cap, mid, x, cname)
  {
    ValidatedCapsRead(localJson);
    ValidatedCapsRead(remoteJson);
    var local, remote := CapsOf(ValidateCaps(localJson).value), CapsOf(ValidateCaps(remoteJson).value);
    RemoteExtsNamed(ValidateCaps(remoteJson).value);
    if Sendable(kind, local, remote, h264) {
      RecordsSendClosure(kind, local, remote, h264, cap, mid, x, cname);
    }
  }

  ghost predicate SendCloses(
    kind: string, local: Caps, remote: Caps, h264: H264, cap: Option<Codec>, mid: string, x: Streams, cname: string)
    requires Sendable(kind, local, remote, h264) && Described(x)
  {
    var e := ExtendedCaps(local, remote, h264);
    AllGood(e.codecs) &&
    var sending := Sending(kind, e);
    var reduced := Reduce(sending.codecs, cap);
    reduced.Picked? ==>
      && reduced.codecs != []
      && (ValidateParams(SendJson(mid, reduced.codecs, sending.exts, EncodingsOf(x), cname)).Ok? <==>
            && mid != "" && reduced.codecs[0].payloadType.Some?
            && (Scalable(reduced.codecs, |EncodingsOf(x)|) || AllModesSpelt(x.given)))
  }

  lemma RecordsSendClosure(
    kind: string, local: Caps, remote: Caps, h264: H264, cap: Option<Codec>, mid: string, x: Streams, cname: string)
    requires Sendable(kind, local, remote, h264) && Described(x)
    requires forall i :: 0 <= i < |remote.exts| ==> Named(remote.exts[i].kind, remote.exts[i].uri)
    ensures SendCloses(kind, local, remote, h264, cap, mid, x, cname)
  {
    var e := ExtendedCaps(local, remote, h264);
    SidesAgree(kind, local, remote, h264);
    var sending := Sending(kind, e);
    if Reduce(sending.codecs, cap).Picked? {
      ReductionPicksAll(sending.codecs, cap);
      SendCodecsAcceptable(kind, e.codecs);
      ExtendExtsNamed(local.exts, remote.exts);
      SendExtsNamed(kind, e.exts);
      EncodingsOfPass(x);
      SendJsonPassesIff(mid, sending.codecs, sending.exts, EncodingsOf(x), cname);
    }
  }
}
