# QQ ↔ Coze relay, modelled in Dafny

The relay is a small webhook service. A QQ gateway (OneBot-style HTTP API)
posts every chat event to `coze_callback`. The handler:

- drops events it does not answer: not a message, a group message that does
  not mention the bot, or a blank message;
- answers three literal commands from a fixed table (`simpleinstructions`);
- passes everything else to a Coze bot over its streaming chat API
  (`get_coze_reply_v3`);
- sends the reply back to the chat it came from (`send_qq_reply`): the text
  with a mention, then one message per image, then one voice message.

Each chat keeps one Coze conversation. A group shares one conversation, and a
private chat has one per user (`get_conversation_key`). Two maps remember each
key's conversation id and when it was last active. Tool replies inside the
stream are sorted by a separate classifier (`parse_coze_tool_response`) into
error, text, image, audio or unknown.

The modules follow the program's structure:

- `Text`: the Python `str` operations the code relies on, over `seq<char>`.
  These are `strip()`/`isspace()`, `sub in s`, `s.split(sep)[0]` and
  `s.split(sep)[-1]` (non-overlapping, left to right), `sep.join`, and
  `urllib.parse.quote(s, safe=":/")` with UTF-8 percent-encoding.
- `JsonValue`: decoded JSON values as Python sees them: `dict.get`, truthiness,
  `code in (0, "0", None)` and `str(v)`. The JSON library itself is a
  parameter: `JsonLib(loads, show, dumps)`.
- `ToolParser`: the classifier's ordered chain of early exits.
- `Sessions`: the conversation key, the expiry sweep on values, and the class
  `SessionStore` that holds the two maps and updates them in place.
- `Reconciler`: the stream loop.
  - `Run` is a fold over events that stops at the first tool error or transport
    exception.
  - `Reconcile` is the imperative loop, proved equal to `Run`.
  - `Finish` is the post-processing: the image announcement, the fallback
    answer after an error, the `(https…)` link heuristic and the placeholder.
- `Dispatch`: endpoint choice, the order the reply's parts are sent in, and the
  command table.
- `Inbound`: the segment loop that builds the user message.
- `Relay`: the handler end to end. `Handle` is a function; `Callback` is a
  method against the `SessionStore` that is proved to agree with it.

The following points describe what the code does, and the model follows it:

- A chat-completed event does not end the stream loop; it only logs token usage.
- After a tool error, the images and audio links gathered before it are kept
  and returned with the fallback answer.
- The link heuristic takes the text after the last `(`, up to the next `)`.
  It is not anchored at `(https`.
- `cleanup_conversations` is never called by the handler. It is modelled as
  `Sessions.SessionStore.Cleanup` all the same.
- The classifier's "unknown" outcome cannot happen with a decoder that follows
  the JSON grammar (`ToolParser.ParseNeverUnknown`). It is reachable only
  through a non-dict value after a leading `{`, which `ToolParser.ParseUnknownExactly`
  characterises.
- The answer text is announced with `"\n\n"` before it is stripped. So an answer
  made only of whitespace plus an image strips to nothing: the reply becomes the
  placeholder and the images are dropped (`Reconciler.FinishWithImages`).

## Model

| member | source | states |
|---|---|---|
| Text.StripEnds | coze_tool_parser.py:25 | `strip()` never lengthens a string, and what remains starts and ends with a non-whitespace character |
| Text.StripEmptyIffBlank | bot.py:281 | `s.strip()` is empty exactly when every character of `s` is whitespace |
| Text.StripIdempotent | bot.py:318 | stripping an already stripped message changes nothing |
| Text.StripTrailingBlank | bot.py:166-167 | appending whitespace does not change what a string strips to |
| Text.IndexFrom | bot.py:113 | a found position lies at or after the start and leaves room for the whole separator |
| Text.IndexOfSpec | bot.py:113 | `find` gives the leftmost occurrence, and gives none exactly when the substring is absent |
| Text.SplitFirstSpec | bot.py:113 | `split(sep)[0]` is the prefix before the first occurrence of `sep`: no occurrence starts inside it, and `sep` follows it when there is one; otherwise it is the whole string |
| Text.SplitLastSpec | bot.py:113 | `split(sep)[-1]` is a suffix holding no `sep`, preceded by an occurrence of `sep` when there is one; otherwise it is the whole string |
| Text.BetweenLastAndNext | bot.py:186 | with one-character delimiters, the text between the last opening one and the next closing one is recovered exactly |
| Text.Join | bot.py:275 | joining no items gives the empty string, and joining one item gives that item |
| Text.Utf8 | bot.py:323 | a character encodes to one to four bytes, each below 256, and an ASCII character to itself |
| Text.Utf8Decodes | bot.py:323 | the encoding is standard UTF-8: the shortest length for the value, a lead byte marking that length, continuation bytes `10xxxxxx`, and a decoder reads the character back |
| Text.PercentEncode | bot.py:323 | percent-encoding writes three characters per byte |
| Text.PercentEncodeDigits | bot.py:323 | byte `i` becomes, from position `3i` on, `%` followed by its own high and low hexadecimal digit |
| Text.PercentEncodeAlphabet | bot.py:323 | percent-encoding yields only `%` and upper-case hexadecimal digits |
| Text.QuoteCharAlphabet | bot.py:323 | one character's part of `quote` holds only safe characters and `%` |
| Text.QuoteKeepsSafe | bot.py:323 | a URL made only of safe characters (letters, digits, `_.-~:/`) passes through `quote` unchanged |
| Text.QuoteAlphabet | bot.py:323 | `quote` output holds only safe characters and `%` |
| ToolParser.ImageUrls | coze_tool_parser.py:70-79 | an image list is found exactly when `data` and `data.data` are dicts and `data.data.image_urls` is a non-empty list, and it is that list |
| ToolParser.AudioLink | coze_tool_parser.py:81-83 | a link is found exactly when `data` is a dict whose `link` is a string starting with `http`, and it is that string |
| ToolParser.ParseObject | coze_tool_parser.py:57-93 | a decoded dict is ok exactly when it is not an error, and is never "unknown" |
| ToolParser.ParseShape | coze_tool_parser.py:12-101 | every result is consistent: ok iff not an error; images iff image type; audio iff audio type, with exactly one `http` link; text only for text or unknown |
| ToolParser.ParseEmpty | coze_tool_parser.py:20-23 | empty or non-string input is the error "empty tool response", not ok |
| ToolParser.ParseRpcError | coze_tool_parser.py:25-33 | a reply starting with `RPCError` once stripped is an error carrying the stripped reply |
| ToolParser.ParsePlainText | coze_tool_parser.py:38-42 | a reply starting with neither `RPCError` nor `{` is ok text: the stripped reply, with no whitespace at its ends |
| ToolParser.ParseBlank | coze_tool_parser.py:20-42 | a whitespace-only reply passes the emptiness check and becomes ok empty text |
| ToolParser.ParseUndecodable | coze_tool_parser.py:47-52 | a `{`-reply that fails to decode is an error starting with "json decode failed: " |
| ToolParser.ParseErrorCodeFirst | coze_tool_parser.py:57-64 | a code other than 0, "0" or absent is an error, whatever the payload; it carries `msg` when that is truthy and the rendered dict otherwise |
| ToolParser.ParseImageBeforeAudio | coze_tool_parser.py:67-79 | with a success code, a non-empty `data.data.image_urls` gives an image result with exactly that list, even when a link is also present |
| ToolParser.ParseAudio | coze_tool_parser.py:80-88 | without images, an `http` link gives an ok audio result `[link]` with `data.duration` |
| ToolParser.ParseOtherObject | coze_tool_parser.py:89-93 | any other successful dict is ok text, rendered by `json.dumps` |
| ToolParser.ParseImageSource | coze_tool_parser.py:57-79 | an image result comes only from a `{`-reply decoded to a dict with a success code, and its images are that dict's `data.data.image_urls` |
| ToolParser.ParseAudioSource | coze_tool_parser.py:57-88 | an audio result comes only from a `{`-reply decoded to a dict with a success code and no image list, and its one link is that dict's `data.link` |
| ToolParser.ParseNonObject | coze_tool_parser.py:98-101 | a decoded value that is not a dict is "unknown", ok, carrying the stripped reply |
| ToolParser.ParseUnknownExactly | coze_tool_parser.py:57-101 | the "unknown" outcome occurs exactly for a `{`-reply that decodes to a non-dict value |
| ToolParser.ParseNeverUnknown | coze_tool_parser.py:95-101 | under a decoder that follows the JSON grammar, the result is never "unknown" |
| ToolParser.ParseImageExample | coze_tool_parser.py:70-79 | the payload `{"code":0,"data":{"data":{"image_urls":["u1","u2"]}}}` yields those two images |
| ToolParser.ParseAudioExample | coze_tool_parser.py:80-88 | the payload `{"code":0,"data":{"link":"http://x/a.mp3","duration":5}}` yields that one link and duration 5 |
| ToolParser.ParseErrorExample | coze_tool_parser.py:60-64 | the payload `{"code":1,"msg":"bad"}` yields the error "bad", not ok |
| Sessions.ConversationKey | bot.py:47-50 | reading the key back gives the group for a group message and the user otherwise |
| Sessions.GroupKeyIgnoresUser | bot.py:48-49 | everyone in a group shares the group's key |
| Sessions.GroupAndUserKeysDiffer | bot.py:47-50 | a group key never equals a user key |
| Sessions.KeysIdentifyScope | bot.py:47-50 | two chats share a key exactly when they are the same group, or the same user outside groups |
| Sessions.Without | bot.py:60-62 | removing keys keeps exactly the other entries, unchanged |
| Sessions.SweepKeepsExactlyFresh | bot.py:54-62 | the sweep keeps an entry exactly when it is at most thirty minutes old, and keeps it unchanged |
| Sessions.SweepBoundary | bot.py:58 | an entry exactly 1800 seconds old survives; one 1801 seconds old is removed |
| Sessions.SweepIdempotent | bot.py:54-62 | sweeping twice at the same time removes nothing more |
| Sessions.SweepMonotone | bot.py:54-62 | a later sweep keeps no entry that an earlier one removed |
| Sessions.SessionStore.constructor | bot.py:33-34 | both maps start empty and hold the same keys |
| Sessions.SessionStore.Lookup | bot.py:75 | gives the conversation id exactly when the key is filed |
| Sessions.SessionStore.Touch | bot.py:85-87 | files the id and the time under the key in both maps, keeping them in step |
| Sessions.SessionStore.Cleanup | bot.py:54-62 | both maps lose exactly the keys whose activity expired, and remain in step |
| Reconciler.TagSpellings | bot.py:89-153 | a known message type is recognised from exactly its plain and `MessageType.` spellings |
| Reconciler.ErrorReasonShape | bot.py:112-116 | with `msg=` present, the reason follows the last `msg=` and ends at the first comma after it or at the end; otherwise it is the generic retry text |
| Reconciler.RunStep | bot.py:76-157 | a stream not yet in error takes its next event and continues with the rest |
| Reconciler.TakenPrefix | bot.py:109-117 | the consumed events are a prefix of the stream, cut short only after an event that stops it |
| Reconciler.TakenStep | bot.py:109-117 | consumption stops right after a stopping first event, and continues after any other |
| Reconciler.StepStops | bot.py:104-117 | a step sets the error flag exactly on a stopping event; the text then becomes the stop message and the media are kept |
| Reconciler.StepGathers | bot.py:89-137 | a non-stopping step appends the event's answer text and parsed media, and nothing else |
| Reconciler.StopsAddsNoMedia | bot.py:109-117 | an event that stops the stream contributes no images or audio |
| Reconciler.RunIgnoresRest | bot.py:117 | events after the first stopping one change nothing |
| Reconciler.RunError | bot.py:109-162 | the run errs exactly when some event stops it, and then the text is the first such event's message |
| Reconciler.RunAnswerText | bot.py:89-92 | without an error, the text is the answer deltas' contents in order |
| Reconciler.RunImages | bot.py:122-126 | the images are those of the parser's image results among the consumed events, in order |
| Reconciler.TakenImagesStep | bot.py:122-126 | the consumed events' images are the first event's, then the rest's unless the first stops the stream |
| Reconciler.RunAudios | bot.py:127-129 | the audio links are those of the parser's audio results among the consumed events, in order |
| Reconciler.TakenAudiosStep | bot.py:127-129 | the consumed events' audio links are the first event's, then the rest's unless the first stops the stream |
| Reconciler.FiledTwice | bot.py:85-87 | filing twice under one key leaves the later value |
| Reconciler.RunConversation | bot.py:85-86 | only the chat's key changes in the conversation map, and it ends with the last id delivered before any error |
| Reconciler.RunActivity | bot.py:85-87 | only the chat's key changes in the activity map, and it is stamped with when that last id arrived |
| Reconciler.ParserErrorIsIgnored | bot.py:130-133 | a tool reply the parser calls an error, without a marker, changes neither text nor media and does not stop the stream |
| Reconciler.LinkHasNoParens | bot.py:186 | the lifted link contains neither `(` nor `)` |
| Reconciler.LinkOfShape | bot.py:193-195 | in `a(u)b`, with no later `(` and no `)` inside `u`, the lifted link is `u` |
| Reconciler.Linked | bot.py:193-195 | the link heuristic never changes the reply text |
| Reconciler.FinishAfterError | bot.py:174-191 | after an error the reply is the stripped fallback, the earlier media are kept, and a link is added only when there are no images |
| Reconciler.ImagesDoneStripped | bot.py:169 | the completion notice with its blank line strips to the notice |
| Reconciler.FinishWithImages | bot.py:164-200 | with images and no error the text is never empty: the stripped text, or the notice when nothing was gathered; whitespace-only text gives the placeholder without images |
| Reconciler.FinishWithText | bot.py:192-200 | with no error and no images, text that is not blank becomes the stripped text, with the link heuristic |
| Reconciler.FinishPlaceholder | bot.py:201-206 | with no error, no images and blank text, the reply is the placeholder with the audio links gathered |
| Reconciler.Absorb | bot.py:89-137 | the loop body for one event's content agrees with the specification step |
| Reconciler.Reconcile | bot.py:67-206 | the loop and post-processing give the reply and the session maps that the fold specifies, and the maps stay in step |
| Dispatch.SendRequest | bot.py:212-223 | a non-empty group id sends to the group endpoint, addressed to the group; otherwise it goes privately to the user; the message is unchanged |
| Dispatch.SendRequestBearer | bot.py:213-216 | every send carries the configured token as a bearer credential |
| Dispatch.ImageMessages | bot.py:298-303 | one image message per image, in order |
| Dispatch.ReplyOrder | bot.py:294-309 | the mention comes first when there is text, then the images in order, then one voice message from the first audio link |
| Dispatch.LaterAudiosDropped | bot.py:304-309 | audio links after the first are never sent |
| Dispatch.EmptyReplySilent | bot.py:294-309 | an empty reply sends nothing |
| Dispatch.Deliveries | bot.py:292-309 | one request per message, in order, each made by `send_qq_reply` |
| Dispatch.DeliveriesShareTarget | bot.py:218-223 | all of a reply's requests go to the same endpoint and addressee and carry the messages in order |
| Dispatch.InstructionIgnoresSpace | bot.py:318 | surrounding whitespace changes neither whether a message is a command nor its answer |
| Dispatch.CommandsAreExact | bot.py:318-337 | a message is a command exactly when, stripped, it equals one of the three command texts |
| Dispatch.TableMentionsOwner | bot.py:319-333 | each command's first message opens with the owner mention |
| Dispatch.CommandsMentionOwner | bot.py:318-337 | a command sends at least one message, and the first mentions the owner |
| Dispatch.PictureCommand | bot.py:318-327 | the picture command sends its answer, then the percent-encoded picture; without a picture it fails after the answer |
| Inbound.TextOfAppend | bot.py:264-265 | text from consecutive runs of segments is the two runs' text, in order |
| Inbound.ImagesOfAppend | bot.py:266-269 | image URLs from consecutive runs of segments are the two runs' URLs, in order |
| Inbound.AudiosOfAppend | bot.py:270-273 | audio URLs from consecutive runs of segments are the two runs' URLs, in order |
| Inbound.ImagesFromImageSegments | bot.py:266-269 | every listed image URL is the non-empty URL of some image segment |
| Inbound.MentionsBotExtend | bot.py:261-263 | one more segment mentions the bot exactly when it is a mention of the bot or an earlier segment was |
| Inbound.BlankMessage | bot.py:274-282 | the message is blank exactly when its text is blank and it has no image or audio URL |
| Inbound.Normalize | bot.py:255-277 | the segment loop produces the text, then the image block, then the audio block, and notes exactly whether the bot was mentioned |
| Relay.RespondStaysInChat | bot.py:285-309 | whatever the answer, every message goes to the group when there is a group id and to the user otherwise |
| Relay.EmptyEventRejected | bot.py:241-242 | an empty event is rejected, with nothing sent and no session touched |
| Relay.UnmentionedGroupIgnored | bot.py:278-279 | a group message that does not mention the bot gets no reply and touches no session |
| Relay.BlankMessageIgnored | bot.py:281-282 | a blank message with no attachments gets no reply and touches no session |
| Relay.AttachmentsAreAnswered | bot.py:274-282 | a private message with an image or audio URL is answered, whatever its text |
| Relay.CommandSkipsBackend | bot.py:285-287 | a command never reaches the backend: the outcome does not depend on the stream, sessions are untouched, and the command's messages are sent |
| Relay.BackendTouchesOwnKey | bot.py:288-292 | a message for the backend changes only its own conversation key, which ends with the last id and its arrival time |
| Relay.RepliesStayInChat | bot.py:251-309 | every message sent goes to the group for a group chat and to the user for a private one |
| Relay.Callback | bot.py:238-311 | the handler against the session store has exactly the outcome `Handle` specifies, and the maps stay in step |

## Left out

- JSON decoding and rendering (`json.loads`, `str()` of a dict, `json.dumps`) are not modelled. They are the `JsonLib` parameter, so every result holds for any decoder. Floats and NaN inside decoded values are opaque `real`s.
- Text.SplitLastSpec: states that the last piece holds no separator and follows one, but for a separator that can overlap itself it does not say which of the overlapping suffixes Python picks; none of the separators used (`msg=`, `,`, `(`, `)`) can overlap itself.
- ToolParser.Parse: `json.loads` is modelled as either a value or a `JSONDecodeError`. Other exceptions it can raise are not represented, such as `ValueError` for an integer literal past Python's digit limit, or `RecursionError` for deep nesting. In the source these escape the parser despite its "never raises" docstring (coze_tool_parser.py:8, 49), and are not caught at bot.py:134. They end the stream through the handler at bot.py:159-162, which sets the API-failure reply and the error flag. At the stream level, a `TransportFailure` event in place of that tool reply gives the same outcome; the model does not derive it from the reply's content.
- Flask routing, `request.json` and `jsonify` are left out. The body arrives already decoded, and the response is the `Status` datatype.
- `requests.post`, its timeout and its failures are left out. A send is the `Request` it would post, so the boolean result of `send_qq_reply` is not modelled.
- `time.sleep` between sends is left out.
- `time.time()` is not modelled. Each stream event carries the time it was observed, and `Cleanup` takes `now` as a parameter.
- Concurrent webhook calls sharing the two maps are not modelled. Every operation runs alone.
- The Coze SDK is left out.
  - The stream is a sequence of `StreamEvent`s, and a failure while connecting or reading is a `TransportFailure` event.
  - The synchronous fallback answer is the `fallback` string.
  - Exceptions raised by the fallback call, and a fallback with no messages, are not modelled.
- The conversation id and user id passed to the backend are not modelled. Only the id filing they lead to is.
- Message types arrive as tags. `Reconciler.NormalizeTag` reads them from either spelling, plain or enum.
- Logging with `print` is left out. Reading `usage` on a chat-completed event is treated as harmless. If it raised, the exception would reach the loop's handler, which a `TransportFailure` event models.
- The picture lookup (`requestscrapy.returnurl`) is not part of this model. Its result is the `picture` option, and an empty result is the `FailedAfter` outcome, because `quote` raises on `None`.
- Malformed segments are not modelled: a segment or its `data` that is not a dict, or an event whose `message` is not a list. Segments arrive as `Segment` values, with absent text and URLs as `""`.
- Loading settings from the environment (`load_dotenv`, `os.getenv`) is left out. It is the `Config` value and `BOT_HTTP_URL`.
- Text.Join: its contract states only the empty and one-item cases. The multi-item case is its definition, and `Inbound.BlankMessage` uses only the fact that the heading precedes the joined URLs.
- Reconciler.Linked: its contract states only that the text is unchanged. What the heuristic adds is stated by `Reconciler.FinishAfterError`, `Reconciler.LinkOfShape` and `Reconciler.LinkHasNoParens`.
- ToolParser.ParseObject: its contract states only the ok/type consistency. The individual branches are stated by the `Parse…` lemmas.
