/**
 * The reply the backend's event stream adds up to (`get_coze_reply_v3`): a fold
 * over stream events that gathers answer text and tool media, remembers the
 * conversation id, and stops at the first tool error; then the post-processing
 * that picks the final text, appends an announcement for images, falls back on
 * the synchronous answer after an error, and lifts a `(https…)` link.
 */
module Reconciler {
  import opened Options
  import opened Text
  import opened JsonValue
  import opened ToolParser
  import opened Sessions

  /** A message's type, whichever of its two spellings the stream used. */
  datatype Tag = Answer | FunctionCall | ToolResponse | Verbose | FollowUp | OtherTag

  /** The plain spelling of a known tag, as in `"tool_response"`. */
  function Plain(tag: Tag): string
    requires tag != OtherTag
  {
    match tag
    case Answer => "answer"
    case FunctionCall => "function_call"
    case ToolResponse => "tool_response"
    case Verbose => "verbose"
    case FollowUp => "follow_up"
  }

  /** The enum spelling of a known tag, as in `"MessageType.TOOL_RESPONSE"`. */
  function EnumName(tag: Tag): string
    requires tag != OtherTag
  {
    match tag
    case Answer => "MessageType.ANSWER"
    case FunctionCall => "MessageType.FUNCTION_CALL"
    case ToolResponse => "MessageType.TOOL_RESPONSE"
    case Verbose => "MessageType.VERBOSE"
    case FollowUp => "MessageType.FOLLOW_UP"
  }

  /** Reads a message type the way the comparisons in the stream loop do: either spelling names the tag. */
  function NormalizeTag(raw: string): Tag
  {
    if raw == "answer" || raw == "MessageType.ANSWER" then Answer
    else if raw == "function_call" || raw == "MessageType.FUNCTION_CALL" then FunctionCall
    else if raw == "tool_response" || raw == "MessageType.TOOL_RESPONSE" then ToolResponse
    else if raw == "verbose" || raw == "MessageType.VERBOSE" then Verbose
    else if raw == "follow_up" || raw == "MessageType.FOLLOW_UP" then FollowUp
    else OtherTag
  }

  /** A known tag is read from exactly its two spellings, and from nothing else. */
  lemma {:induction false} TagSpellings(raw: string, tag: Tag)
    requires tag != OtherTag
    ensures NormalizeTag(raw) == tag <==> raw == Plain(tag) || raw == EnumName(tag)
  {
    match tag
    case Answer =>
    case FunctionCall =>
    case ToolResponse =>
    case Verbose =>
    case FollowUp =>
  }

  /**
   * What a stream event is about, with the message's type already read by
   * `NormalizeTag`. Chat-completion carries only token usage, which only gets printed.
   */
  datatype EventKind =
    | Delta(tag: Tag, content: string)
    | Completed(tag: Tag, content: string)
    | ChatCompleted
    | OtherEvent

  /**
   * One step of the stream: an event observed at time `at`, carrying the chat's
   * conversation id when it has one; or the exception that ends the stream
   * (the SDK failing to connect or to read), with its message.
   */
  datatype StreamEvent =
    | Event(at: real, conversationId: Option<string>, kind: EventKind)
    | TransportFailure(detail: string)

  /** The loop's variables: the reply text so far, media so far, the error flag, and the two session maps. */
  datatype Progress = Progress(
    text: string,
    images: seq<Json>,
    audios: seq<string>,
    errored: bool,
    cache: map<string, string>,
    lastActive: map<string, real>)

  /** The state before the first event: nothing gathered, the session maps as they are. */
  function Start(cache: map<string, string>, lastActive: map<string, real>): Progress
  {
    Progress("", [], [], false, cache, lastActive)
  }

  const Unavailable: string := "豆包AI服务暂时不可用："
  const UnavailableRetry: string := "豆包AI服务暂时不可用，请稍后再试"
  const CallFailed: string := "豆包AI服务调用异常："
  const ImagesDone: string := "图像生成完成！"
  const NoContent: string := "（扣子没有返回内容）"
  const MsgMarker: string := "msg="

  /** A tool reply reporting that the model backend failed. */
  predicate HasErrorMarker(content: string)
  {
    Contains(content, "biz error") || Contains(content, "model has been terminated") || Contains(content, "Execute Fail")
  }

  /** The text shown for a failed tool: the reason after the last `msg=`, up to the next comma. */
  function ErrorReason(content: string): string
  {
    if Contains(content, MsgMarker) then Unavailable + SplitFirst(SplitLast(content, MsgMarker), ",")
    else UnavailableRetry
  }

  /**
   * With `msg=` present, the reason is a run of text that follows an occurrence of
   * `msg=` after which there is no other, holds no comma, and ends at a comma or at
   * the end of the reply. Without it, the reason is the generic retry message.
   */
  lemma {:induction false} ErrorReasonShape(content: string)
    ensures !Contains(content, MsgMarker) ==> ErrorReason(content) == UnavailableRetry
    ensures Contains(content, MsgMarker) ==>
      StartsWith(ErrorReason(content), Unavailable) &&
      var reason := ErrorReason(content)[|Unavailable|..];
      !Contains(reason, ",") &&
      exists j :: OccursAt(content, MsgMarker, j) && !Contains(content[j + |MsgMarker|..], MsgMarker) &&
        StartsWith(content[j + |MsgMarker|..], reason) &&
        (j + |MsgMarker| + |reason| == |content| || content[j + |MsgMarker| + |reason|] == ',')
  {
    if Contains(content, MsgMarker) {
      var tail := SplitLast(content, MsgMarker);
      var reason := SplitFirst(tail, ",");
      SplitLastSpec(content, MsgMarker);
      SplitFirstSpec(tail, ",");
      var j := |content| - |tail| - |MsgMarker|;
      var shown := ErrorReason(content);
      assert content[j + |MsgMarker|..] == tail;
      assert shown == Unavailable + reason;
      assert shown[|Unavailable|..] == reason;
      assert StartsWith(shown, Unavailable) by {
        assert forall i :: 0 <= i < |Unavailable| ==> shown[i] == Unavailable[i];
      }
      assert StartsWith(tail, reason) by {
        assert forall i :: 0 <= i < |reason| ==> tail[i] == tail[..|reason|][i];
      }
      if Contains(tail, ",") {
        assert OccursAt(tail, ",", |reason|);
        assert tail[|reason| + 0] == ","[0];
        assert content[j + |MsgMarker| + |reason|] == tail[|reason|];
      }
      assert OccursAt(content, MsgMarker, j) && !Contains(content[j + |MsgMarker|..], MsgMarker);
    }
  }

  /** An event that ends the stream: the exception, or a tool reply carrying an error marker. */
  predicate Stops(e: StreamEvent)
  {
    e.TransportFailure? ||
    (e.kind.Completed? && e.kind.tag == ToolResponse && HasErrorMarker(e.kind.content))
  }

  /** The text a stopping event leaves behind. */
  function StopMessage(e: StreamEvent): string
    requires Stops(e)
  {
    if e.TransportFailure? then CallFailed + e.detail else ErrorReason(e.kind.content)
  }

  /** The id and time an event files under the chat's key: only a non-empty conversation id does. */
  function TouchOf(e: StreamEvent): Option<(string, real)>
  {
    if e.Event? && e.conversationId.Some? && e.conversationId.value != "" then
      Some((e.conversationId.value, e.at))
    else
      None
  }

  /** The session maps after filing `touch` under `key`, if there is one. */
  function Filed<V>(m: map<string, V>, key: string, touch: Option<V>): map<string, V>
  {
    if touch.Some? then m[key := touch.value] else m
  }

  /** What an event's content has gathered so far: the reply text, the media and the error flag. */
  datatype Gathered = Gathered(text: string, images: seq<Json>, audios: seq<string>, errored: bool)

  /**
   * What one event's content does: an answer delta extends the text; a tool reply
   * with an error marker replaces the text with the reason and sets the flag;
   * any other tool reply contributes the image or audio links the parser finds.
   */
  function Heard(g: Gathered, kind: EventKind, lib: JsonLib): Gathered
  {
    match kind
    case Delta(tag, content) =>
      if tag == Answer then g.(text := g.text + content) else g
    case Completed(tag, content) =>
      if tag != ToolResponse then g
      else if HasErrorMarker(content) then g.(text := ErrorReason(content), errored := true)
      else
        var parsed := Parse(Some(content), lib);
        g.(images := g.images + (if parsed.kind == ImageType then parsed.images else []),
           audios := g.audios + (if parsed.kind == AudioType then parsed.audios else []))
    case _ => g
  }

  /** One turn of the stream loop: file the conversation id, if any, then take in the content. */
  function Step(p: Progress, e: StreamEvent, key: string, lib: JsonLib): Progress
  {
    match e
    case TransportFailure(detail) => p.(text := CallFailed + detail, errored := true)
    case Event(_, _, kind) =>
      var touch := TouchOf(e);
      var g := Heard(Gathered(p.text, p.images, p.audios, p.errored), kind, lib);
      Progress(g.text, g.images, g.audios, g.errored,
               Filed(p.cache, key, if touch.Some? then Some(touch.value.0) else None),
               Filed(p.lastActive, key, if touch.Some? then Some(touch.value.1) else None))
  }

  /** The loop over the whole stream: one step per event until the error flag is set. */
  function Run(events: seq<StreamEvent>, key: string, lib: JsonLib, p: Progress): Progress
    decreases |events|
  {
    if events == [] || p.errored then p
    else Run(events[1..], key, lib, Step(p, events[0], key, lib))
  }

  /** A stream not yet in error takes its next event and goes on with the rest. */
  lemma {:induction false} RunStep(events: seq<StreamEvent>, i: nat, key: string, lib: JsonLib, p: Progress)
    requires i < |events| && !p.errored
    ensures Run(events[i..], key, lib, p) == Run(events[i + 1..], key, lib, Step(p, events[i], key, lib))
  {
    assert events[i..][1..] == events[i + 1..];
  }

  /** The events the loop consumes: all of them, or those up to and including the first that stops it. */
  function Taken(events: seq<StreamEvent>): seq<StreamEvent>
  {
    if events == [] then []
    else if Stops(events[0]) then [events[0]]
    else [events[0]] + Taken(events[1..])
  }

  /** The events consumed are a prefix of the stream, and only an event that stops it cuts it short. */
  lemma {:induction false} TakenPrefix(events: seq<StreamEvent>)
    ensures var t := Taken(events);
      |t| <= |events| && t == events[..|t|] &&
      (|t| < |events| ==> t != [] && Stops(t[|t| - 1]))
  {
    if events != [] && !Stops(events[0]) {
      TakenPrefix(events[1..]);
      var t := Taken(events[1..]);
      assert Taken(events) == [events[0]] + t;
      assert events[..|t| + 1] == [events[0]] + events[1..][..|t|];
    }
  }

  /** An event's part of the answer: the content of an answer delta, nothing otherwise. */
  function AnswerPiece(e: StreamEvent): string
  {
    if e.Event? && e.kind.Delta? && e.kind.tag == Answer then e.kind.content else ""
  }

  /** The answer deltas' contents, in arrival order. */
  function AnswerText(events: seq<StreamEvent>): string
  {
    if events == [] then "" else AnswerPiece(events[0]) + AnswerText(events[1..])
  }

  /** What the parser makes of an event that is a tool reply without an error marker. */
  function ToolParse(e: StreamEvent, lib: JsonLib): Option<ToolResult>
  {
    if e.Event? && e.kind.Completed? && e.kind.tag == ToolResponse && !HasErrorMarker(e.kind.content) then
      Some(Parse(Some(e.kind.content), lib))
    else
      None
  }

  /** An event's images: those of an image result of the parser, nothing otherwise. */
  function ImagesPiece(e: StreamEvent, lib: JsonLib): seq<Json>
  {
    var r := ToolParse(e, lib);
    if r.Some? && r.value.kind == ImageType then r.value.images else []
  }

  /** An event's audio links: those of an audio result of the parser, nothing otherwise. */
  function AudiosPiece(e: StreamEvent, lib: JsonLib): seq<string>
  {
    var r := ToolParse(e, lib);
    if r.Some? && r.value.kind == AudioType then r.value.audios else []
  }

  /** The image lists of the image results among the tool replies, in order. */
  function ToolImages(events: seq<StreamEvent>, lib: JsonLib): seq<Json>
  {
    if events == [] then [] else ImagesPiece(events[0], lib) + ToolImages(events[1..], lib)
  }

  /** The audio links of the audio results among the tool replies, in order. */
  function ToolAudios(events: seq<StreamEvent>, lib: JsonLib): seq<string>
  {
    if events == [] then [] else AudiosPiece(events[0], lib) + ToolAudios(events[1..], lib)
  }

  /** A step on an event that does not stop the stream adds that event's answer text and media, and nothing else. */
  lemma {:induction false} StepGathers(p: Progress, e: StreamEvent, key: string, lib: JsonLib)
    requires !p.errored && !Stops(e)
    ensures var q := Step(p, e, key, lib);
      !q.errored && q.text == p.text + AnswerPiece(e) &&
      q.images == p.images + ImagesPiece(e, lib) && q.audios == p.audios + AudiosPiece(e, lib)
  {
    if e.Event? && e.kind.Completed? && e.kind.tag == ToolResponse {
      assert ToolParse(e, lib) == Some(Parse(Some(e.kind.content), lib));
    }
  }

  /** The last conversation id among the events, with the time it arrived. */
  function LastTouch(events: seq<StreamEvent>): Option<(string, real)>
  {
    if events == [] then None
    else
      var later := LastTouch(events[1..]);
      if later.Some? then later else TouchOf(events[0])
  }

  /** A step sets the error flag exactly on an event that stops the stream. */
  lemma {:induction false} StepStops(p: Progress, e: StreamEvent, key: string, lib: JsonLib)
    requires !p.errored
    ensures Step(p, e, key, lib).errored <==> Stops(e)
    ensures Stops(e) ==> Step(p, e, key, lib).text == StopMessage(e)
    ensures Stops(e) ==> Step(p, e, key, lib).images == p.images && Step(p, e, key, lib).audios == p.audios
  {
  }

  /** The loop consumes exactly the events up to the first that stops it: the rest change nothing. */
  lemma {:induction false} RunIgnoresRest(events: seq<StreamEvent>, key: string, lib: JsonLib, p: Progress)
    requires !p.errored
    ensures Run(events, key, lib, p) == Run(Taken(events), key, lib, p)
    decreases |events|
  {
    if events != [] {
      var q := Step(p, events[0], key, lib);
      StepStops(p, events[0], key, lib);
      if !Stops(events[0]) {
        RunIgnoresRest(events[1..], key, lib, q);
        assert Taken(events)[1..] == Taken(events[1..]);
      }
    }
  }

  /**
   * The stream ends in error exactly when some event stops it, and the error text is
   * what the first such event leaves behind; whatever text came before is replaced.
   */
  lemma {:induction false} RunError(events: seq<StreamEvent>, key: string, lib: JsonLib, p: Progress)
    requires !p.errored
    ensures Run(events, key, lib, p).errored <==> exists i :: 0 <= i < |events| && Stops(events[i])
    ensures Run(events, key, lib, p).errored ==>
      Taken(events) != [] && Stops(Taken(events)[|Taken(events)| - 1]) &&
      Run(events, key, lib, p).text == StopMessage(Taken(events)[|Taken(events)| - 1])
    decreases |events|
  {
    if events != [] {
      var q := Step(p, events[0], key, lib);
      StepStops(p, events[0], key, lib);
      if !Stops(events[0]) {
        RunError(events[1..], key, lib, q);
        assert Taken(events)[1..] == Taken(events[1..]);
        assert (exists i :: 0 <= i < |events| && Stops(events[i])) <==>
               (exists i :: 0 <= i < |events[1..]| && Stops(events[1..][i])) by {
          forall i | 0 < i < |events| ensures events[i] == events[1..][i - 1] { }
        }
      }
    }
  }

  /** A stream that never errs ends with the answer deltas' contents appended, in order, to the text. */
  lemma {:induction false} RunAnswerText(events: seq<StreamEvent>, key: string, lib: JsonLib, p: Progress)
    requires !Run(events, key, lib, p).errored
    ensures Run(events, key, lib, p).text == p.text + AnswerText(events)
    decreases |events|
  {
    if events != [] {
      var q := Step(p, events[0], key, lib);
      StepStops(p, events[0], key, lib);
      if Stops(events[0]) {
        assert false;
      } else {
        StepGathers(p, events[0], key, lib);
        RunAnswerText(events[1..], key, lib, q);
      }
    }
  }

  /** The consumed events: the first alone when it stops the stream, else the first and those the rest consume. */
  lemma {:induction false} TakenStep(events: seq<StreamEvent>)
    requires events != []
    ensures Stops(events[0]) ==> Taken(events) == [events[0]]
    ensures !Stops(events[0]) ==> Taken(events) == [events[0]] + Taken(events[1..])
  {
  }

  /** An event that stops the stream contributes no media. */
  lemma {:induction false} StopsAddsNoMedia(e: StreamEvent, lib: JsonLib)
    requires Stops(e)
    ensures ImagesPiece(e, lib) == [] && AudiosPiece(e, lib) == []
  {
    assert ToolParse(e, lib).None?;
  }

  lemma AppendAssociates<T>(a: seq<T>, b: seq<T>, c: seq<T>)
    ensures (a + b) + c == a + (b + c)
  {
  }

  /** Images are those of the image results among the events the loop consumes, in order. */
  lemma {:induction false} RunImages(events: seq<StreamEvent>, key: string, lib: JsonLib, p: Progress)
    requires !p.errored
    ensures Run(events, key, lib, p).images == p.images + ToolImages(Taken(events), lib)
    decreases |events|
  {
    if events != [] {
      var e := events[0];
      var q := Step(p, e, key, lib);
      StepStops(p, e, key, lib);
      TakenImagesStep(events, lib);
      if Stops(e) {
        StopsAddsNoMedia(e, lib);
        assert Run(events, key, lib, p) == q;
        assert ToolImages(Taken(events), lib) == [];
      } else {
        StepGathers(p, e, key, lib);
        RunImages(events[1..], key, lib, q);
        var piece := ImagesPiece(e, lib);
        var rest := ToolImages(Taken(events[1..]), lib);
        assert Run(events, key, lib, p).images == (p.images + piece) + rest;
        AppendAssociates(p.images, piece, rest);
      }
    }
  }

  /** The images of the consumed events: the first event's, then, unless it stops the loop, those of the rest. */
  lemma {:induction false} TakenImagesStep(events: seq<StreamEvent>, lib: JsonLib)
    requires events != []
    ensures ToolImages(Taken(events), lib) ==
      ImagesPiece(events[0], lib) + (if Stops(events[0]) then [] else ToolImages(Taken(events[1..]), lib))
  {
    TakenStep(events);
    var t := Taken(events);
    if Stops(events[0]) {
      assert ToolImages(t, lib) == ImagesPiece(events[0], lib) + ToolImages([], lib);
    } else {
      assert t[1..] == Taken(events[1..]);
      assert ToolImages(t, lib) == ImagesPiece(events[0], lib) + ToolImages(t[1..], lib);
    }
  }

  /** Audio links are those of the audio results among the events the loop consumes, in order. */
  lemma {:induction false} RunAudios(events: seq<StreamEvent>, key: string, lib: JsonLib, p: Progress)
    requires !p.errored
    ensures Run(events, key, lib, p).audios == p.audios + ToolAudios(Taken(events), lib)
    decreases |events|
  {
    if events != [] {
      var e := events[0];
      var q := Step(p, e, key, lib);
      StepStops(p, e, key, lib);
      TakenAudiosStep(events, lib);
      if Stops(e) {
        StopsAddsNoMedia(e, lib);
        assert Run(events, key, lib, p) == q;
        assert ToolAudios(Taken(events), lib) == [];
      } else {
        StepGathers(p, e, key, lib);
        RunAudios(events[1..], key, lib, q);
        var piece := AudiosPiece(e, lib);
        var rest := ToolAudios(Taken(events[1..]), lib);
        assert Run(events, key, lib, p).audios == (p.audios + piece) + rest;
        AppendAssociates(p.audios, piece, rest);
      }
    }
  }

  /** The audios of the consumed events: the first event's, then, unless it stops the loop, those of the rest. */
  lemma {:induction false} TakenAudiosStep(events: seq<StreamEvent>, lib: JsonLib)
    requires events != []
    ensures ToolAudios(Taken(events), lib) ==
      AudiosPiece(events[0], lib) + (if Stops(events[0]) then [] else ToolAudios(Taken(events[1..]), lib))
  {
    TakenStep(events);
    var t := Taken(events);
    if Stops(events[0]) {
      assert ToolAudios(t, lib) == AudiosPiece(events[0], lib) + ToolAudios([], lib);
    } else {
      assert t[1..] == Taken(events[1..]);
      assert ToolAudios(t, lib) == AudiosPiece(events[0], lib) + ToolAudios(t[1..], lib);
    }
  }

  /** Filing twice under the same key leaves the later value, or the earlier one when there is no later. */
  lemma FiledTwice<V>(m: map<string, V>, key: string, first: Option<V>, second: Option<V>)
    ensures Filed(Filed(m, key, first), key, second) == Filed(m, key, if second.Some? then second else first)
  {
  }

  /** The last conversation id among the consumed events, if any carried one. */
  function LastId(events: seq<StreamEvent>): Option<string>
  {
    var last := LastTouch(Taken(events));
    if last.Some? then Some(last.value.0) else None
  }

  /** The time the last conversation id among the consumed events arrived, if any carried one. */
  function LastSeen(events: seq<StreamEvent>): Option<real>
  {
    var last := LastTouch(Taken(events));
    if last.Some? then Some(last.value.1) else None
  }

  /**
   * Only the chat's key changes in the conversation map: it ends up holding the
   * last conversation id the consumed events carried.
   */
  lemma {:induction false} RunConversation(events: seq<StreamEvent>, key: string, lib: JsonLib, p: Progress)
    requires !p.errored
    ensures Run(events, key, lib, p).cache == Filed(p.cache, key, LastId(events))
    decreases |events|
  {
    if events != [] {
      var q := Step(p, events[0], key, lib);
      var t := TouchOf(events[0]);
      StepStops(p, events[0], key, lib);
      assert q.cache == Filed(p.cache, key, if t.Some? then Some(t.value.0) else None);
      if Stops(events[0]) {
        assert Taken(events) == [events[0]];
        assert LastTouch(Taken(events)) == t;
      } else {
        RunConversation(events[1..], key, lib, q);
        assert Taken(events) == [events[0]] + Taken(events[1..]);
        assert Taken(events)[1..] == Taken(events[1..]);
        FiledTwice(p.cache, key, if t.Some? then Some(t.value.0) else None, LastId(events[1..]));
      }
    }
  }

  /** Only the chat's key changes in the activity map: it ends up stamped with when the last conversation id arrived. */
  lemma {:induction false} RunActivity(events: seq<StreamEvent>, key: string, lib: JsonLib, p: Progress)
    requires !p.errored
    ensures Run(events, key, lib, p).lastActive == Filed(p.lastActive, key, LastSeen(events))
    decreases |events|
  {
    if events != [] {
      var q := Step(p, events[0], key, lib);
      var t := TouchOf(events[0]);
      StepStops(p, events[0], key, lib);
      assert q.lastActive == Filed(p.lastActive, key, if t.Some? then Some(t.value.1) else None);
      if Stops(events[0]) {
        assert Taken(events) == [events[0]];
        assert LastTouch(Taken(events)) == t;
      } else {
        RunActivity(events[1..], key, lib, q);
        assert Taken(events) == [events[0]] + Taken(events[1..]);
        assert Taken(events)[1..] == Taken(events[1..]);
        FiledTwice(p.lastActive, key, if t.Some? then Some(t.value.1) else None, LastSeen(events[1..]));
      }
    }
  }

  /**
   * A tool reply the parser calls an error, but without one of the three markers,
   * does not stop the stream and adds no media and no text.
   */
  lemma {:induction false} ParserErrorIsIgnored(p: Progress, e: StreamEvent, key: string, lib: JsonLib)
    requires !p.errored && ToolParse(e, lib).Some? && ToolParse(e, lib).value.kind == ErrorType
    ensures var q := Step(p, e, key, lib);
      !Stops(e) && !q.errored && q.text == p.text && q.images == p.images && q.audios == p.audios
  {
  }

  /** The reply handed back to the webhook: its text, image values and audio links. */
  datatype Reply = Reply(text: string, images: seq<Json>, audios: seq<string>)

  /** `s.split("(")[-1].split(")")[0]`: the text after the last `(` up to the next `)`. */
  function LinkOf(s: string): string
  {
    SplitFirst(SplitLast(s, "("), ")")
  }

  /** The link holds neither parenthesis. */
  lemma {:induction false} LinkHasNoParens(s: string)
    ensures '(' !in LinkOf(s) && ')' !in LinkOf(s)
  {
    var tail := SplitLast(s, "(");
    var link := LinkOf(s);
    SplitLastSpec(s, "(");
    SplitFirstSpec(tail, ")");
    ContainsChar(tail, '(');
    ContainsChar(link, ')');
    assert forall i :: 0 <= i < |link| ==> link[i] == tail[i];
  }

  /** In `a(u)b`, with no `(` after the one shown and no `)` inside `u`, the link is `u`. */
  lemma {:induction false} LinkOfShape(a: string, u: string, b: string)
    requires '(' !in u && '(' !in b && ')' !in u
    ensures LinkOf(a + "(" + u + ")" + b) == u
  {
    assert a + "(" + u + ")" + b == a + ['('] + u + [')'] + b;
    BetweenLastAndNext(a, u, b, '(', ')');
  }

  /** The link heuristic applies: the text mentions `(https` and `)`, and there are no images yet. */
  predicate LinkApplies(text: string, images: seq<Json>)
  {
    Contains(text, "(https") && Contains(text, ")") && |images| == 0
  }

  /** The final reply with `text`, the link lifted into both media lists when the heuristic applies. */
  function Linked(text: string, images: seq<Json>, audios: seq<string>): (r: Reply)
    ensures r.text == text
  {
    if LinkApplies(text, images) then
      Reply(text, images + [JString(LinkOf(text))], audios + [LinkOf(text)])
    else
      Reply(text, images, audios)
  }

  /** The gathered text once images are announced: a blank line after it, or the completion notice. */
  function Announced(text: string, images: seq<Json>): string
  {
    if images == [] then text
    else if text != "" then text + "\n\n"
    else ImagesDone + "\n\n"
  }

  /** The reply after the stream: the fallback after an error, else the stripped text, else the placeholder. */
  function Finish(p: Progress, fallback: string): Reply
  {
    var text := Announced(p.text, p.images);
    if p.errored then Linked(Strip(fallback), p.images, p.audios)
    else if Strip(text) != "" then Linked(Strip(text), p.images, p.audios)
    else Reply(NoContent, [], p.audios)
  }

  /**
   * After an error the reply is the stripped fallback answer, and the media gathered
   * before the error are kept; only with no images gathered may a link be added.
   */
  lemma {:induction false} FinishAfterError(p: Progress, fallback: string)
    requires p.errored
    ensures var r := Finish(p, fallback);
      r.text == Strip(fallback) &&
      (if LinkApplies(Strip(fallback), p.images)
       then r.images == [JString(LinkOf(Strip(fallback)))] && r.audios == p.audios + [LinkOf(Strip(fallback))]
       else r.images == p.images && r.audios == p.audios)
  {
  }

  /** The notice that stands in for empty text, once stripped. */
  lemma ImagesDoneStripped()
    ensures Strip(ImagesDone + "\n\n") == ImagesDone
  {
    assert Blank("\n\n");
    StripTrailingBlank(ImagesDone, "\n\n");
    StripClean(ImagesDone);
  }

  /**
   * With no error and some images, the reply text is never empty: the gathered text
   * stripped, or the completion notice when nothing was gathered, and the images
   * are kept. Text made only of whitespace strips to nothing once announced, so that
   * reply is the placeholder and the images are dropped.
   */
  lemma {:induction false} FinishWithImages(p: Progress, fallback: string)
    requires !p.errored && p.images != []
    ensures var r := Finish(p, fallback);
      r.text != "" &&
      (p.text == "" ==> r == Reply(ImagesDone, p.images, p.audios)) &&
      (!Blank(p.text) ==> r == Reply(Strip(p.text), p.images, p.audios)) &&
      (p.text != "" && Blank(p.text) ==> r == Reply(NoContent, [], p.audios))
  {
    assert Blank("\n\n");
    if p.text == "" {
      ImagesDoneStripped();
    } else {
      StripTrailingBlank(p.text, "\n\n");
      StripEmptyIffBlank(p.text);
    }
  }

  /** With no error, no images and text that is not blank, the reply is the stripped text, with the link heuristic. */
  lemma {:induction false} FinishWithText(p: Progress, fallback: string)
    requires !p.errored && p.images == [] && !Blank(p.text)
    ensures Finish(p, fallback) == Linked(Strip(p.text), [], p.audios)
    ensures Finish(p, fallback).text != ""
  {
    StripEmptyIffBlank(p.text);
  }

  /** With no error, no images and blank text, the reply is the placeholder with the audio links gathered. */
  lemma {:induction false} FinishPlaceholder(p: Progress, fallback: string)
    requires !p.errored && p.images == [] && Blank(p.text)
    ensures Finish(p, fallback) == Reply(NoContent, [], p.audios)
  {
    StripEmptyIffBlank(p.text);
  }

  /**
   * The body of the stream loop for one event's content: the checks on the message
   * type, the error markers, and the parser's result, in the order they are made.
   */
  method Absorb(kind: EventKind, lib: JsonLib, text: string, images: seq<Json>, audios: seq<string>)
    returns (text': string, images': seq<Json>, audios': seq<string>, failed: bool)
    ensures Gathered(text', images', audios', failed) == Heard(Gathered(text, images, audios, false), kind, lib)
  {
    text', images', audios', failed := text, images, audios, false;
    match kind {
      case Delta(tag, content) =>
        if tag == Answer {
          text' := text + content;
        }
      case Completed(tag, content) =>
        if tag == ToolResponse {
          if HasErrorMarker(content) {
            text' := ErrorReason(content);
            failed := true;
          } else {
            var parsed := Parse(Some(content), lib);
            if parsed.kind == ImageType {
              images' := images + parsed.images;
            }
            if parsed.kind == AudioType {
              audios' := audios + parsed.audios;
            }
          }
        }
      case ChatCompleted =>
      case OtherEvent =>
    }
  }

  /**
   * `get_coze_reply_v3`: runs the stream loop over `events`, updating the session
   * store as conversation ids arrive, then builds the reply. `fallback` is the
   * content of the synchronous answer asked for after an error.
   */
  method Reconcile(store: SessionStore, key: string, events: seq<StreamEvent>, fallback: string, lib: JsonLib)
    returns (reply: Reply)
    requires store.Valid()
    modifies store
    ensures store.Valid()
    ensures var p := Run(events, key, lib, Start(old(store.cache), old(store.lastActive)));
      reply == Finish(p, fallback) && store.cache == p.cache && store.lastActive == p.lastActive
  {
    ghost var start := Start(store.cache, store.lastActive);
    var text: string := "";
    var images: seq<Json> := [];
    var audios: seq<string> := [];
    var errored := false;
    var i := 0;
    while i < |events| && !errored
      invariant 0 <= i <= |events|
      invariant store.Valid()
      invariant Run(events, key, lib, start) ==
        Run(events[i..], key, lib, Progress(text, images, audios, errored, store.cache, store.lastActive))
      decreases |events| - i
    {
      ghost var before := Progress(text, images, audios, errored, store.cache, store.lastActive);
      RunStep(events, i, key, lib, before);
      var e := events[i];
      match e {
        case TransportFailure(detail) =>
          text := CallFailed + detail;
          errored := true;
        case Event(at, id, kind) =>
          if id.Some? && id.value != "" {
            store.Touch(key, id.value, at);
          }
          text, images, audios, errored := Absorb(kind, lib, text, images, audios);
      }
      assert Progress(text, images, audios, errored, store.cache, store.lastActive) == Step(before, e, key, lib);
      i := i + 1;
    }
    reply := Finish(Progress(text, images, audios, errored, store.cache, store.lastActive), fallback);
  }
}
