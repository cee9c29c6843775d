/**
 * Outbound messages to the QQ gateway: which endpoint a message goes to
 * (`send_qq_reply`), the order the reply's parts are sent in (the end of
 * `coze_callback`), and the fixed answers to the literal commands
 * (`simpleinstructions`).
 */
module Dispatch {
  import opened Options
  import opened Text
  import opened JsonValue
  import opened Reconciler

  /** `BOT_HTTP_URL`: the gateway's local HTTP interface. */
  const BotHttpUrl: string := "http://127.0.0.1:5700"
  const GroupEndpoint: string := BotHttpUrl + "/send_group_msg"
  const PrivateEndpoint: string := BotHttpUrl + "/send_private_msg"

  /** The JSON body of a send: addressed to a group, or to one user. */
  datatype Payload = ToGroup(groupId: string, message: string) | ToUser(userId: string, message: string)

  /** One POST to the gateway: endpoint, the `Authorization` header, and the body. */
  datatype Request = Request(url: string, authorization: string, payload: Payload)

  /**
   * `send_qq_reply(user_id, group_id, message)`, up to the POST: a non-empty group
   * id sends to the group, anything else privately to the user. `botToken` is the
   * configured token as the f-string renders it.
   */
  function SendRequest(botToken: string, userId: string, groupId: string, message: string): (r: Request)
    ensures r.payload.message == message
    ensures r.payload.ToGroup? <==> groupId != ""
    ensures r.url == (if r.payload.ToGroup? then GroupEndpoint else PrivateEndpoint)
    ensures r.payload.ToGroup? ==> r.payload.groupId == groupId
    ensures r.payload.ToUser? ==> r.payload.userId == userId
  {
    var auth := "Bearer " + botToken;
    if groupId != "" then Request(GroupEndpoint, auth, ToGroup(groupId, message))
    else Request(PrivateEndpoint, auth, ToUser(userId, message))
  }

  /** Every send carries the configured token as a bearer credential. */
  lemma {:induction false} SendRequestBearer(botToken: string, userId: string, groupId: string, message: string)
    ensures var r := SendRequest(botToken, userId, groupId, message);
      StartsWith(r.authorization, "Bearer ") && r.authorization[|"Bearer "|..] == botToken
  {
    var auth := SendRequest(botToken, userId, groupId, message).authorization;
    assert auth[..7] == "Bearer ";
  }

  /** `[CQ:at,qq=<user>] <text>`: the reply text, mentioning the asker. */
  function AtMessage(userId: string, text: string): string
  {
    "[CQ:at,qq=" + userId + "] " + text
  }

  /** `[CQ:image,file=<url>]`, with the image value rendered as an f-string does. */
  function ImageMessage(image: Json, lib: JsonLib): string
  {
    "[CQ:image,file=" + Str(image, lib) + "]"
  }

  /** `[CQ:record,file=<url>]`: a voice message. */
  function RecordMessage(audio: string): string
  {
    "[CQ:record,file=" + audio + "]"
  }

  /** One image message per image, in order. */
  function ImageMessages(images: seq<Json>, lib: JsonLib): (msgs: seq<string>)
    ensures |msgs| == |images|
    ensures forall i :: 0 <= i < |images| ==> msgs[i] == ImageMessage(images[i], lib)
  {
    if images == [] then [] else [ImageMessage(images[0], lib)] + ImageMessages(images[1..], lib)
  }

  /**
   * What `coze_callback` sends for a reply: the text with a mention if there is
   * text, then the images, then a voice message for the first audio link only.
   */
  function ReplyMessages(userId: string, reply: Reply, lib: JsonLib): seq<string>
  {
    (if reply.text != "" then [AtMessage(userId, reply.text)] else [])
    + ImageMessages(reply.images, lib)
    + (if reply.audios != [] then [RecordMessage(reply.audios[0])] else [])
  }

  /**
   * The sends come in a fixed order: the mention first when there is text, then
   * one message per image in the reply's order, then exactly one voice message
   * when there is any audio link, made from the first.
   */
  lemma {:induction false} ReplyOrder(userId: string, reply: Reply, lib: JsonLib)
    ensures var msgs := ReplyMessages(userId, reply, lib);
      var t := if reply.text != "" then 1 else 0;
      var a := if reply.audios != [] then 1 else 0;
      |msgs| == t + |reply.images| + a &&
      (reply.text != "" ==> msgs[0] == AtMessage(userId, reply.text)) &&
      (forall i :: 0 <= i < |reply.images| ==> msgs[t + i] == ImageMessage(reply.images[i], lib)) &&
      (reply.audios != [] ==> msgs[|msgs| - 1] == RecordMessage(reply.audios[0]))
  {
    var t := if reply.text != "" then 1 else 0;
    var head: seq<string> := if reply.text != "" then [AtMessage(userId, reply.text)] else [];
    var imgs := ImageMessages(reply.images, lib);
    var tail: seq<string> := if reply.audios != [] then [RecordMessage(reply.audios[0])] else [];
    var msgs := ReplyMessages(userId, reply, lib);
    assert msgs == head + imgs + tail;
    assert forall i :: 0 <= i < |reply.images| ==> msgs[t + i] == imgs[i];
  }

  /** Audio links after the first are never sent. */
  lemma {:induction false} LaterAudiosDropped(userId: string, text: string, images: seq<Json>,
                                             first: string, more: seq<string>, lib: JsonLib)
    ensures ReplyMessages(userId, Reply(text, images, [first] + more), lib) ==
            ReplyMessages(userId, Reply(text, images, [first]), lib)
  {
  }

  /** A reply with no text, images or audio links sends nothing. */
  lemma {:induction false} EmptyReplySilent(userId: string, lib: JsonLib)
    ensures ReplyMessages(userId, Reply("", [], []), lib) == []
  {
  }

  /** Each message as a request: all to the same endpoint and the same addressee. */
  function Deliveries(botToken: string, userId: string, groupId: string, msgs: seq<string>): (rs: seq<Request>)
    ensures |rs| == |msgs|
    ensures forall i :: 0 <= i < |rs| ==> rs[i] == SendRequest(botToken, userId, groupId, msgs[i])
  {
    if msgs == [] then [] else [SendRequest(botToken, userId, groupId, msgs[0])] + Deliveries(botToken, userId, groupId, msgs[1..])
  }

  /** Every request for one reply goes to the same endpoint with the same addressee, carrying the messages in order. */
  lemma {:induction false} DeliveriesShareTarget(botToken: string, userId: string, groupId: string, msgs: seq<string>)
    ensures var rs := Deliveries(botToken, userId, groupId, msgs);
      (forall i :: 0 <= i < |rs| ==> rs[i].url == (if groupId != "" then GroupEndpoint else PrivateEndpoint)) &&
      (forall i :: 0 <= i < |rs| ==> rs[i].payload.message == msgs[i]) &&
      (forall i :: 0 <= i < |rs| ==> rs[i].payload == (if groupId != "" then ToGroup(groupId, msgs[i]) else ToUser(userId, msgs[i])))
  {
  }

  /** The account the commands mention. */
  const Owner: string := "[CQ:at,qq=2467304267]"
  const AskWhat: string := "刘jj是什么?"
  const AskWhatAnswer: string := Owner + " " + "你是sb，我不允许你继续和我聊天"
  const AtCommand: string := "atljj"
  const AtCommandAnswer: string := Owner + "@你的人给了你一坨子"
  const KickCommand: string := "tljj"
  const KickCommandAnswer: string := Owner + " " + "@你的人给了你一脚"

  /**
   * What `simpleinstructions` does: not a command; a command with the messages
   * sent; or a command whose picture lookup came back empty, which raises after
   * the messages already sent.
   */
  datatype CommandOutcome = NotCommand | Handled(sent: seq<string>) | FailedAfter(sent: seq<string>)

  /** The command table, looked up with a message already stripped. */
  function CommandFor(m: string, picture: Option<string>): CommandOutcome
  {
    if m == AskWhat then
      match picture
      case None => FailedAfter([AskWhatAnswer])
      case Some(url) => Handled([AskWhatAnswer, "[CQ:image,file=" + Quote(url) + "]"])
    else if m == AtCommand then Handled([AtCommandAnswer])
    else if m == KickCommand then Handled([KickCommandAnswer])
    else NotCommand
  }

  /**
   * `simpleinstructions`: an exact match of the stripped message against three
   * commands. `picture` is what the picture lookup supplies, `None` when it finds none.
   */
  function Instruction(message: string, picture: Option<string>): CommandOutcome
  {
    CommandFor(Strip(message), picture)
  }

  /** Whitespace around a message does not change whether it is a command, nor the answer. */
  lemma {:induction false} InstructionIgnoresSpace(message: string, picture: Option<string>)
    ensures Instruction(message, picture) == Instruction(Strip(message), picture)
  {
    StripIdempotent(message);
  }

  /** A message is a command exactly when, stripped, it is one of the three command texts. */
  lemma {:induction false} CommandsAreExact(message: string, picture: Option<string>)
    ensures Instruction(message, picture).NotCommand? <==>
      Strip(message) != AskWhat && Strip(message) != AtCommand && Strip(message) != KickCommand
  {
  }

  lemma {:induction false} StartsWithJoin(a: string, b: string)
    ensures StartsWith(a + b, a)
  {
    assert (a + b)[..|a|] == a;
  }

  /** Each answer in the table opens with the owner mention. */
  lemma {:induction false} TableMentionsOwner(m: string, picture: Option<string>)
    ensures var r := CommandFor(m, picture);
      !r.NotCommand? ==> r.sent != [] && StartsWith(r.sent[0], Owner)
  {
    StartsWithJoin(Owner, " " + "你是sb，我不允许你继续和我聊天");
    StartsWithJoin(Owner, "@你的人给了你一坨子");
    StartsWithJoin(Owner, " " + "@你的人给了你一脚");
    assert AskWhatAnswer == Owner + (" " + "你是sb，我不允许你继续和我聊天");
    assert KickCommandAnswer == Owner + (" " + "@你的人给了你一脚");
  }

  /** Every command's first message mentions the owner account, and nothing is sent for a non-command. */
  lemma {:induction false} CommandsMentionOwner(message: string, picture: Option<string>)
    ensures var r := Instruction(message, picture);
      !r.NotCommand? ==> r.sent != [] && StartsWith(r.sent[0], Owner)
  {
    TableMentionsOwner(Strip(message), picture);
  }

  /**
   * The picture command sends its answer and then the picture, with the URL
   * percent-encoded so that only URL-safe characters, `%` and hex digits remain;
   * without a picture it fails after the answer.
   */
  lemma {:induction false} PictureCommand(message: string, picture: Option<string>)
    requires Strip(message) == AskWhat
    ensures picture.None? ==> Instruction(message, picture) == FailedAfter([AskWhatAnswer])
    ensures picture.Some? ==>
      var r := Instruction(message, picture);
      r.Handled? && |r.sent| == 2 && r.sent[0] == AskWhatAnswer &&
      r.sent[1] == "[CQ:image,file=" + Quote(picture.value) + "]" &&
      forall i :: 0 <= i < |Quote(picture.value)| ==> UrlSafe(Quote(picture.value)[i]) || Quote(picture.value)[i] == '%'
  {
    assert Instruction(message, picture) == CommandFor(AskWhat, picture);
    if picture.Some? {
      QuoteAlphabet(picture.value);
    }
  }
}
