/**
  Which JSON values the validators of RTP capabilities and RTP parameters accept, field by field, and what
  they become: the default values (src/ortc.cpp).
 */
module Accepted {
  import opened Text
  import opened Validators
  import opened RtpParameters

  predicate HasText(o: map<string, Json>, key: string) { key in o && o[key].Str? }
  predicate HasInt(o: map<string, Json>, key: string) { key in o && o[key].Int? }

  /** Field `key` of `v` is the one of `o` if that is of the right type, and else the default. */
  predicate DefaultsTo(o: map<string, Json>, v: map<string, Json>, key: string, right: bool, default: Json) {
    key in v && (if right then key in o && v[key] == o[key] else v[key] == default)
  }

  /** No field but these changed. */
  ghost predicate SameBut(o: map<string, Json>, v: map<string, Json>, keys: set<string>) {
    forall key :: key !in keys ==> (key in v <==> key in o) && (key in o ==> v[key] == o[key])
  }

  // ----- feedback -----------------------------------------------------------------------------

  predicate GoodFb(j: Json) { j.Obj? && HasText(j.o, "type") }

  /** Feedback needs a type; its parameter defaults to the empty text. */
  lemma FbAcceptedIff(j: Json)
    ensures ValidateFeedback(j).Ok? <==> GoodFb(j)
    ensures GoodFb(j) ==> var v := ValidateFeedback(j).value;
              v.Obj? && SameBut(j.o, v.o, {"parameter"})
              && DefaultsTo(j.o, v.o, "parameter", HasText(j.o, "parameter"), Str(""))
  {
  }

  predicate GoodFbs(o: map<string, Json>) {
    "rtcpFeedback" in o && o["rtcpFeedback"].Arr? ==>
      forall i :: 0 <= i < |o["rtcpFeedback"].a| ==> GoodFb(o["rtcpFeedback"].a[i])
  }

  lemma FbsAcceptedIff(a: seq<Json>)
    ensures ValidateAll(a, ValidateFeedback).Ok? <==> forall i :: 0 <= i < |a| ==> GoodFb(a[i])
  {
    forall i | 0 <= i < |a| ensures ValidateFeedback(a[i]).Ok? <==> GoodFb(a[i]) {
      FbAcceptedIff(a[i]);
    }
  }

  // ----- codecs -------------------------------------------------------------------------------

  /** audio or video in any case, a slash, and something behind it without a line end. */
  predicate MediaMime(mime: string) {
    && |mime| > 6 && (Lower(mime[..6]) == "audio/" || Lower(mime[..6]) == "video/")
    && forall i :: 6 <= i < |mime| ==> mime[i] != '\n' && mime[i] != '\r'
  }

  lemma MediaMimeIff(mime: string)
    ensures MimeKind(mime) == if MediaMime(mime) then Some(mime[..5]) else None
  {
    if |mime| > 6 {
      assert Lower(mime[..6]) == Lower(mime[..5]) + [LowerChar(mime[5])];
      assert Lower(mime[..6])[..5] == Lower(mime[..5]) && Lower(mime[..6])[5] == LowerChar(mime[5]);
      assert forall c :: c in mime[6..] <==> exists i :: 6 <= i < |mime| && mime[i] == c;
      assert "audio/"[..5] == "audio" && "video/"[..5] == "video";
      assert "audio" + "/" == "audio/" && "video" + "/" == "video/";
    }
  }

  /** Text, a number or null, and the apt an integer. */
  predicate GoodParameters(o: map<string, Json>) {
    "parameters" in o && o["parameters"].Obj? ==>
      forall key :: key in o["parameters"].o ==>
        var v := o["parameters"].o[key];
        (v.Str? || v.Int? || v.Float? || v.Null?) && (key == "apt" ==> v.Int?)
  }

  predicate HasMediaMime(o: map<string, Json>) { HasText(o, "mimeType") && MediaMime(o["mimeType"].s) }

  predicate GoodCodec(j: Json) {
    && j.Obj? && HasMediaMime(j.o)
    && ("preferredPayloadType" in j.o ==> j.o["preferredPayloadType"].Int?)
    && HasInt(j.o, "clockRate") && GoodParameters(j.o) && GoodFbs(j.o)
  }

  /** What defaulting makes of the three optional fields. */
  ghost predicate Completed(o: map<string, Json>, v: map<string, Json>, kind: string) {
    && (if kind == "audio" then DefaultsTo(o, v, "channels", HasInt(o, "channels"), Int(1)) else "channels" !in v)
    && DefaultsTo(o, v, "parameters", "parameters" in o && o["parameters"].Obj?, Obj(map[]))
    && DefaultsTo(o, v, "rtcpFeedback", "rtcpFeedback" in o && o["rtcpFeedback"].Arr?, Arr([]))
    && SameBut(o, v, {"channels", "parameters", "rtcpFeedback"})
  }

  lemma DefaultedCompletes(o: map<string, Json>, kind: string)
    ensures Completed(o, Defaulted(o, kind), kind)
  {
  }

  lemma WithDefaultsCompletes(o: map<string, Json>, kind: string)
    ensures var v := WithDefaults(o, kind);
            && Completed(o["kind" := Str(kind)], v, kind) && v["kind"] == Str(kind)
            && DefaultsTo(o, v, "parameters", "parameters" in o && o["parameters"].Obj?, Obj(map[]))
            && DefaultsTo(o, v, "rtcpFeedback", "rtcpFeedback" in o && o["rtcpFeedback"].Arr?, Arr([]))
  {
    DefaultedCompletes(o["kind" := Str(kind)], kind);
  }

  lemma CompletedParametersIff(o: map<string, Json>, v: map<string, Json>)
    requires DefaultsTo(o, v, "parameters", "parameters" in o && o["parameters"].Obj?, Obj(map[]))
    ensures v["parameters"].Obj? && (ValidParameters(v["parameters"].o) <==> GoodParameters(o))
  {
    var p := v["parameters"].o;
    assert ValidParameters(p) <==> forall key :: key in p ==> IsParameter(key, p[key]);
  }

  lemma CompletedFbsIff(o: map<string, Json>, v: map<string, Json>)
    requires DefaultsTo(o, v, "rtcpFeedback", "rtcpFeedback" in o && o["rtcpFeedback"].Arr?, Arr([]))
    ensures v["rtcpFeedback"].Arr? && (ValidateAll(v["rtcpFeedback"].a, ValidateFeedback).Ok? <==> GoodFbs(o))
  {
    FbsAcceptedIff(v["rtcpFeedback"].a);
  }

  /** A codec capability is accepted exactly when it has a media MIME type and a clock rate, its payload type, if
      it has one, is an integer, and what parameters and feedback it has are good. */
  lemma CodecAcceptedIff(j: Json)
    ensures ValidateCodec(j).Ok? <==> GoodCodec(j)
  {
    if j.Obj? && HasText(j.o, "mimeType") {
      MediaMimeIff(j.o["mimeType"].s);
      if MediaMime(j.o["mimeType"].s) {
        var v := WithDefaults(j.o, j.o["mimeType"].s[..5]);
        WithDefaultsCompletes(j.o, j.o["mimeType"].s[..5]);
        CompletedParametersIff(j.o, v);
        CompletedFbsIff(j.o, v);
      }
    }
  }

  /** The fields a codec capability gets: the kind as its MIME type spells it, one channel if it is audio and
      has none, empty parameters and feedback. */
  lemma CodecBecomes(j: Json)
    requires GoodCodec(j)
    ensures ValidateCodec(j).Ok? && ValidateCodec(j).value.Obj?
    ensures var v, kind := ValidateCodec(j).value.o, j.o["mimeType"].s[..5];
            && HasText(v, "kind") && v["kind"].s == kind
            && (if kind == "audio" then DefaultsTo(j.o, v, "channels", HasInt(j.o, "channels"), Int(1))
                else "channels" !in v)
            && DefaultsTo(j.o, v, "parameters", "parameters" in j.o && j.o["parameters"].Obj?, Obj(map[]))
            && "rtcpFeedback" in v && v["rtcpFeedback"].Arr?
            && FbsBecome(j.o, v["rtcpFeedback"].a)
            && SameBut(j.o, v, {"kind", "channels", "parameters", "rtcpFeedback"})
  {
    CodecAcceptedIff(j);
    MediaMimeIff(j.o["mimeType"].s);
    var kind := j.o["mimeType"].s[..5];
    WithDefaultsCompletes(j.o, kind);
    FbsValidated(j.o, WithDefaults(j.o, kind));
  }

  ghost predicate FbsBecome(o: map<string, Json>, fbs: seq<Json>) {
    if "rtcpFeedback" in o && o["rtcpFeedback"].Arr? then
      && |fbs| == |o["rtcpFeedback"].a|
      && forall i :: 0 <= i < |fbs| ==> FbBecomes(o["rtcpFeedback"].a[i], fbs[i])
    else fbs == []
  }

  ghost predicate FbBecomes(j: Json, v: Json) {
    && j.Obj? && v.Obj? && SameBut(j.o, v.o, {"parameter"})
    && DefaultsTo(j.o, v.o, "parameter", HasText(j.o, "parameter"), Str(""))
  }

  lemma FbsValidated(o: map<string, Json>, v: map<string, Json>)
    requires DefaultsTo(o, v, "rtcpFeedback", "rtcpFeedback" in o && o["rtcpFeedback"].Arr?, Arr([])) && GoodFbs(o)
    ensures v["rtcpFeedback"].Arr? && ValidateAll(v["rtcpFeedback"].a, ValidateFeedback).Ok?
    ensures FbsBecome(o, ValidateAll(v["rtcpFeedback"].a, ValidateFeedback).value)
  {
    CompletedFbsIff(o, v);
    var a := v["rtcpFeedback"].a;
    forall i | 0 <= i < |a| ensures FbBecomes(a[i], ValidateAll(a, ValidateFeedback).value[i]) {
      FbAcceptedIff(a[i]);
    }
  }

  // ----- header extensions --------------------------------------------------------------------

  predicate GoodExt(j: Json) {
    && j.Obj? && HasText(j.o, "kind") && (j.o["kind"].s == "audio" || j.o["kind"].s == "video")
    && HasText(j.o, "uri") && j.o["uri"].s != "" && HasInt(j.o, "preferredId")
    && ("preferredEncrypt" in j.o ==> j.o["preferredEncrypt"].Bool?)
    && ("direction" in j.o ==> j.o["direction"].Str?)
  }

  /** A header extension is accepted exactly when these fields are there and of the right type; it is not
      encrypted and goes both ways unless it says otherwise. */
  lemma ExtAcceptedIff(j: Json)
    ensures ValidateExt(j).Ok? <==> GoodExt(j)
    ensures GoodExt(j) ==> var v := ValidateExt(j).value;
              && v.Obj? && SameBut(j.o, v.o, {"preferredEncrypt", "direction"})
              && DefaultsTo(j.o, v.o, "preferredEncrypt", "preferredEncrypt" in j.o, Bool(false))
              && DefaultsTo(j.o, v.o, "direction", "direction" in j.o, Str("sendrecv"))
  {
  }

  // ----- capabilities -------------------------------------------------------------------------

  /** Absent, or an array of good entries. */
  ghost predicate GoodArray(o: map<string, Json>, key: string, good: Json -> bool) {
    key in o ==> o[key].Arr? && forall i :: 0 <= i < |o[key].a| ==> good(o[key].a[i])
  }

  lemma AllAcceptedIff(a: seq<Json>, f: Json -> Result<Json>, good: Json -> bool)
    requires forall j :: f(j).Ok? <==> good(j)
    ensures ValidateAll(a, f).Ok? <==> forall i :: 0 <= i < |a| ==> good(a[i])
  {
  }

  /** Capabilities are accepted exactly when both lists, where present, are arrays of good entries; an absent
      list becomes empty, and nothing else is added. */
  lemma CapsAcceptedIff(j: Json)
    ensures ValidateCaps(j).Ok? <==>
            j.Obj? && GoodArray(j.o, "codecs", GoodCodec) && GoodArray(j.o, "headerExtensions", GoodExt)
    ensures ValidateCaps(j).Ok? ==> var v := ValidateCaps(j).value;
              && v.Obj? && SameBut(j.o, v.o, {"codecs", "headerExtensions"})
              && "codecs" in v.o && v.o["codecs"].Arr? && ("codecs" !in j.o ==> v.o["codecs"].a == [])
              && "headerExtensions" in v.o && v.o["headerExtensions"].Arr?
              && ("headerExtensions" !in j.o ==> v.o["headerExtensions"].a == [])
  {
    forall c ensures ValidateCodec(c).Ok? <==> GoodCodec(c) { CodecAcceptedIff(c); }
    forall x ensures ValidateExt(x).Ok? <==> GoodExt(x) { ExtAcceptedIff(x); }
    if j.Obj? && ArrayField(j.o, "codecs").Arr? && ArrayField(j.o, "headerExtensions").Arr? {
      AllAcceptedIff(ArrayField(j.o, "codecs").a, ValidateCodec, GoodCodec);
      AllAcceptedIff(ArrayField(j.o, "headerExtensions").a, ValidateExt, GoodExt);
    } else if j.Obj? && ArrayField(j.o, "codecs").Arr? {
      AllAcceptedIff(ArrayField(j.o, "codecs").a, ValidateCodec, GoodCodec);
    }
  }

  // ----- RTP parameters -----------------------------------------------------------------------

  predicate GoodCodecParams(j: Json) {
    && j.Obj? && HasMediaMime(j.o) && HasInt(j.o, "payloadType") && HasInt(j.o, "clockRate")
    && GoodParameters(j.o) && GoodFbs(j.o)
  }

  lemma CodecParamsAcceptedIff(j: Json)
    ensures ValidateCodecParams(j).Ok? <==> GoodCodecParams(j)
  {
    if j.Obj? && HasText(j.o, "mimeType") {
      MediaMimeIff(j.o["mimeType"].s);
      if MediaMime(j.o["mimeType"].s) {
        var v := Defaulted(j.o, j.o["mimeType"].s[..5]);
        DefaultedCompletes(j.o, j.o["mimeType"].s[..5]);
        CompletedParametersIff(j.o, v);
        CompletedFbsIff(j.o, v);
      }
    }
  }

  predicate GoodExtParams(j: Json) {
    && j.Obj? && HasText(j.o, "uri") && j.o["uri"].s != "" && HasInt(j.o, "id")
    && ("encrypt" in j.o ==> j.o["encrypt"].Bool?)
    && ("parameters" in j.o && j.o["parameters"].Obj? ==>
          forall key :: key in j.o["parameters"].o ==>
            var v := j.o["parameters"].o[key]; v.Str? || v.Int? || v.Float?)
  }

  lemma ExtParamsAcceptedIff(j: Json)
    ensures ValidateExtParams(j).Ok? <==> GoodExtParams(j)
    ensures GoodExtParams(j) ==> var v := ValidateExtParams(j).value;
              && v.Obj? && SameBut(j.o, v.o, {"encrypt", "parameters"})
              && DefaultsTo(j.o, v.o, "encrypt", "encrypt" in j.o, Bool(false))
              && DefaultsTo(j.o, v.o, "parameters", "parameters" in j.o && j.o["parameters"].Obj?, Obj(map[]))
  {
  }

  predicate GoodEncoding(j: Json) {
    && j.Obj? && ("ssrc" in j.o ==> j.o["ssrc"].Int?)
    && ("rid" in j.o ==> j.o["rid"].Str? && j.o["rid"].s != "")
    && ("rtx" in j.o ==> j.o["rtx"].Obj? && HasInt(j.o["rtx"].o, "ssrc"))
    && ("scalabilityMode" in j.o ==> j.o["scalabilityMode"].Str? && j.o["scalabilityMode"].s != "")
  }

  lemma EncodingAcceptedIff(j: Json)
    ensures ValidateEncoding(j).Ok? <==> GoodEncoding(j)
    ensures GoodEncoding(j) ==> var v := ValidateEncoding(j).value;
              && v.Obj? && SameBut(j.o, v.o, {"dtx"})
              && DefaultsTo(j.o, v.o, "dtx", "dtx" in j.o && j.o["dtx"].Bool?, Bool(false))
  {
  }

  predicate GoodRtcp(j: Json) { j.Obj? && ("cname" in j.o ==> j.o["cname"].Str?) }

  lemma RtcpAcceptedIff(j: Json)
    ensures ValidateRtcp(j).Ok? <==> GoodRtcp(j)
    ensures GoodRtcp(j) ==> var v := ValidateRtcp(j).value;
              && v.Obj? && SameBut(j.o, v.o, {"reducedSize"})
              && DefaultsTo(j.o, v.o, "reducedSize", "reducedSize" in j.o && j.o["reducedSize"].Bool?, Bool(true))
  {
  }

  predicate GoodMid(o: map<string, Json>) { "mid" in o ==> o["mid"].Str? && o["mid"].s != "" }

  /** RTP parameters are accepted exactly when the mid, if present, is a text that is not empty, the codecs are
      there, and what else is present is good. */
  lemma ParamsAcceptedIff(j: Json)
    ensures ValidateParams(j).Ok? <==>
            && j.Obj? && GoodMid(j.o) && "codecs" in j.o && GoodArray(j.o, "codecs", GoodCodecParams)
            && GoodArray(j.o, "headerExtensions", GoodExtParams) && GoodArray(j.o, "encodings", GoodEncoding)
            && ("rtcp" in j.o ==> GoodRtcp(j.o["rtcp"]))
  {
    if j.Obj? {
      ArrayAcceptedIff(j.o, "codecs", ValidateCodecParams, GoodCodecParams) by {
        forall c ensures ValidateCodecParams(c).Ok? <==> GoodCodecParams(c) { CodecParamsAcceptedIff(c); }
      }
      ArrayAcceptedIff(j.o, "headerExtensions", ValidateExtParams, GoodExtParams) by {
        forall x ensures ValidateExtParams(x).Ok? <==> GoodExtParams(x) { ExtParamsAcceptedIff(x); }
      }
      ArrayAcceptedIff(j.o, "encodings", ValidateEncoding, GoodEncoding) by {
        forall e ensures ValidateEncoding(e).Ok? <==> GoodEncoding(e) { EncodingAcceptedIff(e); }
      }
      RtcpAcceptedIff(RtcpField(j.o));
      ValidatesIff(j.o);
    }
  }

  lemma ArrayAcceptedIff(o: map<string, Json>, key: string, f: Json -> Result<Json>, good: Json -> bool)
    requires forall j :: f(j).Ok? <==> good(j)
    ensures Passes(o, key, f) <==> GoodArray(o, key, good)
  {
    if ArrayField(o, key).Arr? {
      AllAcceptedIff(ArrayField(o, key).a, f, good);
    }
  }

  predicate Passes(o: map<string, Json>, key: string, f: Json -> Result<Json>) {
    ArrayField(o, key).Arr? && ValidateAll(ArrayField(o, key).a, f).Ok?
  }

  lemma ValidatesIff(o: map<string, Json>)
    ensures ValidateParams(Obj(o)).Ok? <==>
            && GoodMid(o) && "codecs" in o && Passes(o, "codecs", ValidateCodecParams)
            && Passes(o, "headerExtensions", ValidateExtParams) && Passes(o, "encodings", ValidateEncoding)
            && ValidateRtcp(RtcpField(o)).Ok?
  {
  }
}
