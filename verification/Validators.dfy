/**
  JSON values and the capability validators of src/ortc.cpp. A validator fills in defaults in place and
  throws on bad input; here it returns the filled value or the message.
 */
module Validators {
  import opened Text

  datatype Json =
    | Null
    | Bool(b: bool)
    | Int(i: int)
    | Float(r: real)
    | Str(s: string)
    | Arr(a: seq<Json>)
    | Obj(o: map<string, Json>)

  // ----- MIME types -------------------------------------------------------------------------

  function LowerChar(c: char): char { if 'A' <= c <= 'Z' then c - 'A' + 'a' else c }

  /** `std::transform` with `::tolower`. */
  function Lower(s: string): (t: string)
    ensures |t| == |s| && forall i :: 0 <= i < |s| ==> t[i] == LowerChar(s[i])
  {
    seq(|s|, i requires 0 <= i < |s| => LowerChar(s[i]))
  }

  /** The media part of a MIME type that matches `^(audio|video)/(.+)` in any case; a dot does not match
      a line end. */
  function MimeKind(mime: string): (kind: Option<string>)
  {
    if |mime| > 6 && (Lower(mime[..5]) == "audio" || Lower(mime[..5]) == "video") && mime[5] == '/'
       && '\n' !in mime[6..] && '\r' !in mime[6..]
    then Some(mime[..5]) else None
  }

  /** A MIME type that matches `^(audio|video)/rtx$` in any case. */
  predicate IsRtxMime(mime: string) { Lower(mime) == "audio/rtx" || Lower(mime) == "video/rtx" }

  lemma RtxMimeOfKind(mime: string, kind: string)
    requires MimeKind(mime) == Some(kind)
    ensures MimeKind(kind + "/rtx") == Some(kind) && IsRtxMime(kind + "/rtx")
  {
    var m := kind + "/rtx";
    assert m[..5] == kind && m[6..] == "rtx";
    assert Lower(m) == Lower(kind) + "/rtx";
  }

  // ----- validators -------------------------------------------------------------------------

  function ValidateFeedback(j: Json): Result<Json>
  {
    if !j.Obj? then Err("fb is not an object")
    else if "type" !in j.o || !j.o["type"].Str? then Err("missing fb.type")
    else if "parameter" !in j.o || !j.o["parameter"].Str? then Ok(Obj(j.o["parameter" := Str("")]))
    else Ok(j)
  }

  /** Validates an array entry by entry; the first bad entry throws. */
  function ValidateAll(a: seq<Json>, f: Json -> Result<Json>): (r: Result<seq<Json>>)
    ensures r.Ok? ==> |r.value| == |a| && forall i :: 0 <= i < |a| ==> f(a[i]) == Ok(r.value[i])
    ensures r.Err? ==> exists i :: 0 <= i < |a| && f(a[i]).Err?
  {
    if a == [] then Ok([])
    else match f(a[0])
      case Err(e) => Err(e)
      case Ok(v) =>
        match ValidateAll(a[1..], f)
        case Err(e) => Err(e)
        case Ok(vs) => Ok([v] + vs)
  }

  predicate IsParameter(key: string, v: Json) {
    (v.Str? || v.Int? || v.Float? || v.Null?) && (key == "apt" ==> v.Int?)
  }

  predicate ValidParameters(o: map<string, Json>) { forall key :: key in o ==> IsParameter(key, o[key]) }

  /** The optional fields of a codec after defaulting: an audio codec gets a channel count, any other
      loses it; parameters and feedback default to empty. */
  function Defaulted(o: map<string, Json>, kind: string): map<string, Json>
  {
    var o2 := if kind == "audio"
              then (if "channels" !in o || !o["channels"].Int? then o["channels" := Int(1)] else o)
              else o - {"channels"};
    var o3 := if "parameters" !in o2 || !o2["parameters"].Obj? then o2["parameters" := Obj(map[])] else o2;
    if "rtcpFeedback" !in o3 || !o3["rtcpFeedback"].Arr? then o3["rtcpFeedback" := Arr([])] else o3
  }

  /** A capability also gets its kind. */
  function WithDefaults(o: map<string, Json>, kind: string): map<string, Json>
  {
    Defaulted(o["kind" := Str(kind)], kind)
  }

  function ValidateCodec(j: Json): Result<Json>
  {
    if !j.Obj? then Err("codec is not an object")
    else if "mimeType" !in j.o || !j.o["mimeType"].Str? then Err("missing codec.mimeType")
    else match MimeKind(j.o["mimeType"].s)
      case None => Err("invalid codec.mimeType")
      case Some(kind) =>
        if "preferredPayloadType" in j.o && !j.o["preferredPayloadType"].Int?
        then Err("invalid codec.preferredPayloadType")
        else if "clockRate" !in j.o || !j.o["clockRate"].Int? then Err("missing codec.clockRate")
        else
          var o := WithDefaults(j.o, kind);
          if !ValidParameters(o["parameters"].o) then Err("invalid codec parameter")
          else match ValidateAll(o["rtcpFeedback"].a, ValidateFeedback)
            case Err(e) => Err(e)
            case Ok(fbs) => Ok(Obj(o["rtcpFeedback" := Arr(fbs)]))
  }

  function ValidateExt(j: Json): Result<Json>
  {
    if !j.Obj? then Err("ext is not an object")
    else if "kind" !in j.o || !j.o["kind"].Str? then Err("missing ext.kind")
    else if j.o["kind"].s != "audio" && j.o["kind"].s != "video" then Err("invalid ext.kind")
    else if "uri" !in j.o || !j.o["uri"].Str? || j.o["uri"].s == "" then Err("missing ext.uri")
    else if "preferredId" !in j.o || !j.o["preferredId"].Int? then Err("missing ext.preferredId")
    else if "preferredEncrypt" in j.o && !j.o["preferredEncrypt"].Bool? then Err("invalid ext.preferredEncrypt")
    else if "direction" in j.o && !j.o["direction"].Str? then Err("invalid ext.direction")
    else
      var o1 := if "preferredEncrypt" in j.o then j.o else j.o["preferredEncrypt" := Bool(false)];
      Ok(Obj(if "direction" in o1 then o1 else o1["direction" := Str("sendrecv")]))
  }

  /** An optional array field: absent means empty. */
  function ArrayField(o: map<string, Json>, key: string): Json { if key in o then o[key] else Arr([]) }

  function ValidateCaps(j: Json): Result<Json>
  {
    if !j.Obj? then Err("caps is not an object")
    else if !ArrayField(j.o, "codecs").Arr? then Err("caps.codecs is not an array")
    else match ValidateAll(ArrayField(j.o, "codecs").a, ValidateCodec)
      case Err(e) => Err(e)
      case Ok(codecs) =>
        if !ArrayField(j.o, "headerExtensions").Arr? then Err("caps.headerExtensions is not an array")
        else match ValidateAll(ArrayField(j.o, "headerExtensions").a, ValidateExt)
          case Err(e) => Err(e)
          case Ok(exts) => Ok(Obj(j.o["codecs" := Arr(codecs)]["headerExtensions" := Arr(exts)]))
  }

  // ----- validating twice changes nothing more ------------------------------------------------

  lemma {:induction false} ValidateAllFixed(a: seq<Json>, f: Json -> Result<Json>)
    requires forall i :: 0 <= i < |a| ==> f(a[i]) == Ok(a[i])
    ensures ValidateAll(a, f) == Ok(a)
  {
    if a == [] {
    } else {
      ValidateAllFixed(a[1..], f);
      assert a == [a[0]] + a[1..];
    }
  }

  /** A codec object that has every mandatory field and every default. */
  predicate Filled(v: map<string, Json>, kind: string) {
    && "mimeType" in v && v["mimeType"].Str? && MimeKind(v["mimeType"].s) == Some(kind)
    && "kind" in v && v["kind"] == Str(kind)
    && ("preferredPayloadType" in v ==> v["preferredPayloadType"].Int?)
    && "clockRate" in v && v["clockRate"].Int?
    && (if kind == "audio" then "channels" in v && v["channels"].Int? else "channels" !in v)
    && "parameters" in v && v["parameters"].Obj? && ValidParameters(v["parameters"].o)
    && "rtcpFeedback" in v && v["rtcpFeedback"].Arr?
    && forall i :: 0 <= i < |v["rtcpFeedback"].a| ==>
         ValidateFeedback(v["rtcpFeedback"].a[i]) == Ok(v["rtcpFeedback"].a[i])
  }

  lemma DefaultsKeep(o: map<string, Json>, kind: string)
    ensures var d := WithDefaults(o, kind);
            && (forall key :: key !in {"kind", "channels", "parameters", "rtcpFeedback"} ==>
                  (key in d <==> key in o) && (key in o ==> d[key] == o[key]))
            && "kind" in d && d["kind"] == Str(kind)
            && (if kind == "audio" then "channels" in d && d["channels"].Int? else "channels" !in d)
            && (kind == "audio" && "channels" in o && o["channels"].Int? ==> d["channels"] == o["channels"])
            && ("parameters" in o && o["parameters"].Obj? ==> d["parameters"] == o["parameters"])
            && ("rtcpFeedback" in o && o["rtcpFeedback"].Arr? ==> d["rtcpFeedback"] == o["rtcpFeedback"])
  {
  }

  /** A codec validates to a filled object, and the filled objects are exactly those left unchanged. */
  lemma ValidatedIsFilled(j: Json)
    requires ValidateCodec(j).Ok?
    ensures ValidateCodec(j).value.Obj?
    ensures Filled(ValidateCodec(j).value.o, MimeKind(j.o["mimeType"].s).value)
  {
    var kind := MimeKind(j.o["mimeType"].s).value;
    DefaultsKeep(j.o, kind);
    ValidatedFeedbackFixed(WithDefaults(j.o, kind)["rtcpFeedback"].a);
  }

  lemma ValidatedFeedbackFixed(a: seq<Json>)
    requires ValidateAll(a, ValidateFeedback).Ok?
    ensures forall i :: 0 <= i < |a| ==>
              var fb := ValidateAll(a, ValidateFeedback).value[i]; ValidateFeedback(fb) == Ok(fb)
  {
    var v := ValidateAll(a, ValidateFeedback).value;
    forall i | 0 <= i < |a| ensures ValidateFeedback(v[i]) == Ok(v[i]) {
      assert ValidateFeedback(a[i]) == Ok(v[i]);
    }
  }

  lemma FilledIsFixed(v: map<string, Json>, kind: string)
    requires Filled(v, kind)
    ensures ValidateCodec(Obj(v)) == Ok(Obj(v))
  {
    ValidateAllFixed(v["rtcpFeedback"].a, ValidateFeedback);
    assert v["kind" := Str(kind)] == v;
    assert v - {"channels"} == v || kind == "audio";
    assert WithDefaults(v, kind) == v;
    assert v["rtcpFeedback" := Arr(v["rtcpFeedback"].a)] == v;
  }

  lemma ValidatedCodecsFixed(a: seq<Json>)
    requires ValidateAll(a, ValidateCodec).Ok?
    ensures var v := ValidateAll(a, ValidateCodec).value; ValidateAll(v, ValidateCodec) == Ok(v)
  {
    var v := ValidateAll(a, ValidateCodec).value;
    forall i | 0 <= i < |v| ensures ValidateCodec(v[i]) == Ok(v[i]) {
      ValidatedIsFilled(a[i]);
      FilledIsFixed(v[i].o, MimeKind(a[i].o["mimeType"].s).value);
    }
    ValidateAllFixed(v, ValidateCodec);
  }

  lemma ValidatedExtsFixed(a: seq<Json>)
    requires ValidateAll(a, ValidateExt).Ok?
    ensures var v := ValidateAll(a, ValidateExt).value; ValidateAll(v, ValidateExt) == Ok(v)
  {
    var v := ValidateAll(a, ValidateExt).value;
    forall i | 0 <= i < |v| ensures ValidateExt(v[i]) == Ok(v[i]) {
      assert ValidateExt(a[i]) == Ok(v[i]);
    }
    ValidateAllFixed(v, ValidateExt);
  }

  /** Validation is idempotent: what a validator returns it accepts again without change. */
  lemma ValidateCapsTwice(j: Json)
    requires ValidateCaps(j).Ok?
    ensures ValidateCaps(ValidateCaps(j).value) == ValidateCaps(j)
  {
    ValidatedCodecsFixed(ArrayField(j.o, "codecs").a);
    ValidatedExtsFixed(ArrayField(j.o, "headerExtensions").a);
    var v := ValidateCaps(j).value;
    var codecs, exts := v.o["codecs"].a, v.o["headerExtensions"].a;
    assert v.o["codecs" := Arr(codecs)]["headerExtensions" := Arr(exts)] == v.o;
  }
}
