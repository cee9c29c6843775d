/**
 * The classifier for a tool's raw reply (`parse_coze_tool_response`): an ordered
 * chain of early exits that sorts the reply into error, text, image, audio or
 * unknown. The model is total: a decoder outcome other than a value or a decode
 * error is not represented here.
 */
module ToolParser {
  import opened Options
  import opened Text
  import opened JsonValue

  /** The `type` field of the result. */
  datatype ResponseType = ErrorType | TextType | ImageType | AudioType | UnknownType

  /**
   * The result dictionary. `audios` and `duration` are keys only an audio result
   * has; every other result carries them here as `[]` and `JNull`. `error` holds
   * whatever value was put there, which for a tool's own `msg` field need not be a string.
   */
  datatype ToolResult = ToolResult(
    ok: bool,
    kind: ResponseType,
    images: seq<Json>,
    text: string,
    error: Json,
    audios: seq<string>,
    duration: Json)

  /** The dictionary the parser starts from. */
  const Initial: ToolResult := ToolResult(false, UnknownType, [], "", JString(""), [], JNull)

  const EmptyResponse: string := "empty tool response"
  const DecodeFailed: string := "json decode failed: "

  /** `data.data.image_urls`, when `data` and `data.data` are dicts and it is a non-empty list. */
  function ImageUrls(payload: Json): (urls: Option<seq<Json>>)
    ensures urls.Some? <==>
      payload.JObject? && Get(payload.fields, "data").JObject? &&
      Get(Get(payload.fields, "data").fields, "image_urls").JArray? &&
      Get(Get(payload.fields, "data").fields, "image_urls").items != []
    ensures urls.Some? ==> urls.value == Get(Get(payload.fields, "data").fields, "image_urls").items && urls.value != []
  {
    if payload.JObject? && Get(payload.fields, "data").JObject? then
      var list := Get(Get(payload.fields, "data").fields, "image_urls");
      if list.JArray? && list.items != [] then Some(list.items) else None
    else
      None
  }

  /** `data.link`, when `data` is a dict and the link is a string starting with `http`. */
  function AudioLink(payload: Json): (link: Option<string>)
    ensures link.Some? <==>
      payload.JObject? && Get(payload.fields, "link").JString? && StartsWith(Get(payload.fields, "link").s, "http")
    ensures link.Some? ==> link.value == Get(payload.fields, "link").s && StartsWith(link.value, "http")
  {
    if payload.JObject? && Get(payload.fields, "link").JString? && StartsWith(Get(payload.fields, "link").s, "http") then
      Some(Get(payload.fields, "link").s)
    else
      None
  }

  /** Steps 4 and 5 of the chain, for a reply that decoded to a dict. */
  function ParseObject(fields: map<string, Json>, lib: JsonLib): (r: ToolResult)
    ensures r.ok <==> r.kind != ErrorType
    ensures r.kind in {ErrorType, TextType, ImageType, AudioType}
  {
    var code := Get(fields, "code");
    if !IsSuccessCode(code) then
      var msg := Get(fields, "msg");
      Initial.(kind := ErrorType, error := if Truthy(msg) then msg else JString(lib.show(JObject(fields))))
    else
      var payload := Get(fields, "data");
      match ImageUrls(payload)
      case Some(urls) => Initial.(ok := true, kind := ImageType, images := urls)
      case None =>
        match AudioLink(payload)
        case Some(link) =>
          Initial.(ok := true, kind := AudioType, audios := [link], duration := Get(payload.fields, "duration"))
        case None => Initial.(ok := true, kind := TextType, text := lib.dumps(JObject(fields)))
  }

  /**
   * `parse_coze_tool_response(content)`. `content` is `None` for a value that is not a
   * string; `lib.loads` stands for `json.loads`, applied to the stripped text.
   */
  function Parse(content: Option<string>, lib: JsonLib): ToolResult
  {
    if content.None? || content.value == "" then
      Initial.(kind := ErrorType, error := JString(EmptyResponse))
    else
      var stripped := Strip(content.value);
      if StartsWith(stripped, "RPCError") then
        Initial.(kind := ErrorType, error := JString(stripped))
      else if !StartsWith(stripped, "{") then
        Initial.(ok := true, kind := TextType, text := stripped)
      else
        match lib.loads(stripped)
        case DecodeError(detail) => Initial.(kind := ErrorType, error := JString(DecodeFailed + detail))
        case Value(JObject(fields)) => ParseObject(fields, lib)
        case Value(_) => Initial.(ok := true, kind := UnknownType, text := stripped)
  }

  /**
   * Every result is consistent: ok exactly when not an error, images exactly for an
   * image result, one `http` link exactly for an audio result, and text only for a
   * text or unknown result.
   */
  lemma {:induction false} ParseShape(content: Option<string>, lib: JsonLib)
    ensures var r := Parse(content, lib);
      && (r.ok <==> r.kind != ErrorType)
      && (r.kind == ImageType <==> r.images != [])
      && (r.kind == AudioType <==> r.audios != [])
      && (r.kind == AudioType ==> |r.audios| == 1 && StartsWith(r.audios[0], "http"))
      && (r.kind != TextType && r.kind != UnknownType ==> r.text == "")
  {
  }

  /** A stripped reply that starts with `{` does not start with `RPCError`, so it reaches the decoder. */
  lemma BraceIsNotRpcError(s: string)
    requires StartsWith(s, "{")
    ensures !StartsWith(s, "RPCError")
  {
    assert s[0] == s[..1][0] == '{';
    assert |s| >= 8 ==> s[..8][0] == '{';
    assert "RPCError"[0] == 'R';
  }

  /** Empty or non-string input is an error "empty tool response", not ok. */
  lemma {:induction false} ParseEmpty(content: Option<string>, lib: JsonLib)
    requires content.None? || content.value == ""
    ensures var r := Parse(content, lib);
      r.kind == ErrorType && r.error == JString(EmptyResponse) && !r.ok
  {
  }

  /** A reply that starts with `RPCError` once stripped is an error whose message is the stripped reply, verbatim. */
  lemma {:induction false} ParseRpcError(content: string, lib: JsonLib)
    requires content != [] && StartsWith(Strip(content), "RPCError")
    ensures var r := Parse(Some(content), lib);
      r.kind == ErrorType && r.error == JString(Strip(content)) && !r.ok
  {
  }

  /**
   * A reply that, once stripped, starts with neither `RPCError` nor `{` is text:
   * exactly the stripped reply, with no surrounding whitespace, and ok.
   */
  lemma {:induction false} ParsePlainText(content: string, lib: JsonLib)
    requires content != []
    requires !StartsWith(Strip(content), "RPCError") && !StartsWith(Strip(content), "{")
    ensures var r := Parse(Some(content), lib);
      r.kind == TextType && r.ok && r.text == Strip(content)
    ensures var r := Parse(Some(content), lib);
      r.text == [] || (!IsSpace(r.text[0]) && !IsSpace(r.text[|r.text| - 1]))
  {
    StripEnds(content);
  }

  /** A whitespace-only reply is non-empty, so it is not "empty tool response": it is ok text, and that text is empty. */
  lemma {:induction false} ParseBlank(content: string, lib: JsonLib)
    requires content != [] && Blank(content)
    ensures var r := Parse(Some(content), lib);
      r.kind == TextType && r.ok && r.text == ""
  {
    StripEmptyIffBlank(content);
  }

  /** A `{`-reply the decoder rejects is an error whose message starts with "json decode failed: ". */
  lemma {:induction false} ParseUndecodable(content: string, lib: JsonLib)
    requires content != [] && StartsWith(Strip(content), "{")
    requires lib.loads(Strip(content)).DecodeError?
    ensures var r := Parse(Some(content), lib);
      && r.kind == ErrorType && !r.ok && r.error.JString?
      && StartsWith(r.error.s, DecodeFailed)
  {
    BraceIsNotRpcError(Strip(content));
    var r := Parse(Some(content), lib);
    assert r.error.s == DecodeFailed + lib.loads(Strip(content)).detail;
    assert r.error.s[..|DecodeFailed|] == DecodeFailed;
  }

  /** The decoded dict a `{`-reply stands for, when it decoded to one. */
  predicate DecodesTo(content: string, lib: JsonLib, fields: map<string, Json>)
  {
    content != [] && StartsWith(Strip(content), "{") && lib.loads(Strip(content)) == Value(JObject(fields))
  }

  /**
   * A `code` other than 0, "0" or absent makes the reply an error before any payload is
   * looked at: even a payload with images or a link yields an error carrying `msg` when
   * that is truthy, and the rendered dict otherwise.
   */
  lemma {:induction false} ParseErrorCodeFirst(content: string, lib: JsonLib, fields: map<string, Json>)
    requires DecodesTo(content, lib, fields)
    requires !IsSuccessCode(Get(fields, "code"))
    ensures var r := Parse(Some(content), lib);
      && r.kind == ErrorType && !r.ok && r.images == [] && r.audios == []
      && r.error == (if Truthy(Get(fields, "msg")) then Get(fields, "msg") else JString(lib.show(JObject(fields))))
  {
    BraceIsNotRpcError(Strip(content));
  }

  /**
   * With a success code, a non-empty `data.data.image_urls` list gives an image result
   * carrying exactly that list, whether or not `data.link` is also present.
   */
  lemma {:induction false} ParseImageBeforeAudio(content: string, lib: JsonLib, fields: map<string, Json>, urls: seq<Json>)
    requires DecodesTo(content, lib, fields)
    requires IsSuccessCode(Get(fields, "code"))
    requires var payload := Get(fields, "data");
      payload.JObject? && Get(payload.fields, "data").JObject?
      && Get(Get(payload.fields, "data").fields, "image_urls") == JArray(urls) && urls != []
    ensures var r := Parse(Some(content), lib);
      r.kind == ImageType && r.ok && r.images == urls && r.audios == []
  {
    BraceIsNotRpcError(Strip(content));
  }

  /** Without images, a `data.link` string starting with `http` gives an audio result `[link]`, ok, with `data.duration`. */
  lemma {:induction false} ParseAudio(content: string, lib: JsonLib, fields: map<string, Json>, link: string)
    requires DecodesTo(content, lib, fields)
    requires IsSuccessCode(Get(fields, "code"))
    requires ImageUrls(Get(fields, "data")).None?
    requires var payload := Get(fields, "data");
      payload.JObject? && Get(payload.fields, "link") == JString(link) && StartsWith(link, "http")
    ensures var r := Parse(Some(content), lib);
      && r.kind == AudioType && r.ok && r.audios == [link] && r.images == []
      && r.duration == Get(Get(fields, "data").fields, "duration")
  {
    BraceIsNotRpcError(Strip(content));
  }

  /** Any other dict with a success code is ok text: the dict as `json.dumps` renders it. */
  lemma {:induction false} ParseOtherObject(content: string, lib: JsonLib, fields: map<string, Json>)
    requires DecodesTo(content, lib, fields)
    requires IsSuccessCode(Get(fields, "code"))
    requires ImageUrls(Get(fields, "data")).None? && AudioLink(Get(fields, "data")).None?
    ensures var r := Parse(Some(content), lib);
      r.kind == TextType && r.ok && r.text == lib.dumps(JObject(fields))
  {
    BraceIsNotRpcError(Strip(content));
  }

  /**
   * An image result comes only from a `{`-reply that decoded to a dict with a success
   * code, and its images are exactly that dict's non-empty `data.data.image_urls`.
   */
  lemma {:induction false} ParseImageSource(content: Option<string>, lib: JsonLib)
    requires Parse(content, lib).kind == ImageType
    ensures content.Some? && content.value != [] && StartsWith(Strip(content.value), "{")
    ensures var d := lib.loads(Strip(content.value));
      d.Value? && d.value.JObject? && IsSuccessCode(Get(d.value.fields, "code")) &&
      ImageUrls(Get(d.value.fields, "data")) == Some(Parse(content, lib).images)
  {
    var stripped := Strip(content.value);
    BraceIsNotRpcError(stripped);
  }

  /**
   * An audio result comes only from a `{`-reply that decoded to a dict with a success
   * code and no image list, and its one link is exactly that dict's `data.link`.
   */
  lemma {:induction false} ParseAudioSource(content: Option<string>, lib: JsonLib)
    requires Parse(content, lib).kind == AudioType
    ensures content.Some? && content.value != [] && StartsWith(Strip(content.value), "{")
    ensures var d := lib.loads(Strip(content.value));
      d.Value? && d.value.JObject? && IsSuccessCode(Get(d.value.fields, "code")) &&
      ImageUrls(Get(d.value.fields, "data")).None? &&
      Parse(content, lib).audios == [Get(Get(d.value.fields, "data").fields, "link").s]
  {
    var stripped := Strip(content.value);
    BraceIsNotRpcError(stripped);
  }

  /** A decoded value that is not a dict is "unknown", ok, carrying the stripped reply. */
  lemma {:induction false} ParseNonObject(content: string, lib: JsonLib)
    requires content != [] && StartsWith(Strip(content), "{")
    requires lib.loads(Strip(content)).Value? && !lib.loads(Strip(content)).value.JObject?
    ensures var r := Parse(Some(content), lib);
      r.kind == UnknownType && r.ok && r.text == Strip(content)
  {
    BraceIsNotRpcError(Strip(content));
  }

  /**
   * The "unknown" outcome happens exactly for a `{`-reply that decodes to a value
   * other than a dict: a list, a string, a number, `true`, `false` or `null`.
   */
  lemma {:induction false} ParseUnknownExactly(content: Option<string>, lib: JsonLib)
    ensures Parse(content, lib).kind == UnknownType <==>
      content.Some? && content.value != [] && StartsWith(Strip(content.value), "{") &&
      lib.loads(Strip(content.value)).Value? && !lib.loads(Strip(content.value)).value.JObject?
  {
    if content.Some? && content.value != [] {
      var stripped := Strip(content.value);
      if StartsWith(stripped, "{") {
        BraceIsNotRpcError(stripped);
        var d := lib.loads(stripped);
        if d.Value? && d.value.JObject? {
          assert Parse(content, lib) == ParseObject(d.value.fields, lib);
        }
      }
    }
  }

  /** `lib.loads` follows the JSON grammar: a text starting with `{` decodes to an object or fails. */
  ghost predicate ObjectsOnly(lib: JsonLib)
  {
    forall s {:trigger lib.loads(s)} :: StartsWith(s, "{") ==> lib.loads(s).DecodeError? || lib.loads(s).value.JObject?
  }

  /**
   * The "unknown" outcome is dead code under a decoder that follows the JSON grammar:
   * a text starting with `{` can only decode to an object or fail.
   */
  lemma {:induction false} ParseNeverUnknown(content: Option<string>, lib: JsonLib)
    requires ObjectsOnly(lib)
    ensures Parse(content, lib).kind != UnknownType
  {
    ParseUnknownExactly(content, lib);
    if content.Some? && content.value != [] {
      var d := lib.loads(Strip(content.value));
    }
  }

  /** The image payload `{"code":0,"data":{"data":{"image_urls":["u1","u2"]}}}`, once decoded, is the image list. */
  lemma {:induction false} ParseImageExample(lib: JsonLib)
    ensures var r := ParseObject(map["code" := JInt(0),
      "data" := JObject(map["data" := JObject(map["image_urls" := JArray([JString("u1"), JString("u2")])])])], lib);
      r.kind == ImageType && r.images == [JString("u1"), JString("u2")]
  {
  }

  /** The audio payload `{"code":0,"data":{"link":"http://x/a.mp3","duration":5}}`, once decoded, is that one link. */
  lemma {:induction false} ParseAudioExample(lib: JsonLib)
    ensures var r := ParseObject(map["code" := JInt(0),
      "data" := JObject(map["link" := JString("http://x/a.mp3"), "duration" := JInt(5)])], lib);
      r.kind == AudioType && r.audios == ["http://x/a.mp3"] && r.duration == JInt(5)
  {
    assert StartsWith("http://x/a.mp3", "http");
  }

  /** The error payload `{"code":1,"msg":"bad"}`, once decoded, is the error "bad". */
  lemma {:induction false} ParseErrorExample(lib: JsonLib)
    ensures var r := ParseObject(map["code" := JInt(1), "msg" := JString("bad")], lib);
      r.kind == ErrorType && r.error == JString("bad") && !r.ok
  {
  }
}
