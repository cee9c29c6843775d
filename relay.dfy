/**
 * The webhook handler `coze_callback` end to end: screening the inbound event,
 * the literal commands, the backend exchange with its session bookkeeping, and
 * the messages sent back to the gateway.
 */
module Relay {
  import opened Options
  import opened Text
  import opened JsonValue
  import opened Sessions
  import opened Reconciler
  import opened Dispatch
  import opened Inbound

  /** The environment the handler reads: `BOT_QQ` as Python compares it (`JNull` when unset) and `BOT_TOKEN` as rendered. */
  datatype Config = Config(botQq: Json, botToken: string)

  /** How the handler answers the webhook: 400 for an empty event, 200 otherwise, or an exception escaping it. */
  datatype Status = Rejected | Accepted | Crashed

  /** The handler's whole effect: its answer, the requests sent to the gateway in order, and the session maps after. */
  datatype Outcome = Outcome(status: Status, sent: seq<Request>, cache: map<string, string>, lastActive: map<string, real>)

  /** `str(event.get("user_id"))`. */
  function UserIdOf(event: map<string, Json>, lib: JsonLib): string
  {
    Str(Get(event, "user_id"), lib)
  }

  /** `str(event.get("group_id"))` for a group message, `""` otherwise. */
  function GroupIdOf(event: map<string, Json>, lib: JsonLib): string
  {
    if Get(event, "message_type") == JString("group") then Str(Get(event, "group_id"), lib) else ""
  }

  /** The event is a private or group chat message, the only kinds the handler answers. */
  predicate IsChat(event: map<string, Json>)
  {
    Get(event, "post_type") == JString("message") &&
    (Get(event, "message_type") == JString("private") || Get(event, "message_type") == JString("group"))
  }

  /** A chat message the handler goes on to answer: not a group message that leaves the bot unmentioned, not blank. */
  predicate Answered(event: map<string, Json>, segs: seq<Segment>, cfg: Config)
  {
    IsChat(event) &&
    (Get(event, "message_type") == JString("group") ==> MentionsBot(segs, cfg.botQq)) &&
    Strip(UserMessage(segs)) != ""
  }

  /**
   * `coze_callback`. `body` is the decoded request body (`None` when there is none)
   * and `segs` its `message` list; `picture` is what the picture lookup supplies,
   * `events` the backend's stream and `fallback` its synchronous answer, each used
   * only on the path that asks for it.
   */
  function Handle(body: Option<map<string, Json>>, segs: seq<Segment>, cfg: Config, picture: Option<string>,
                  events: seq<StreamEvent>, fallback: string, lib: JsonLib,
                  cache: map<string, string>, lastActive: map<string, real>): Outcome
  {
    if body.None? || body.value == map[] then Outcome(Rejected, [], cache, lastActive)
    else
      var event := body.value;
      if !Answered(event, segs, cfg) then Outcome(Accepted, [], cache, lastActive)
      else
        Respond(UserMessage(segs), Get(event, "message_type").s, UserIdOf(event, lib), GroupIdOf(event, lib),
                cfg, picture, events, fallback, lib, cache, lastActive)
  }

  /**
   * The rest of `coze_callback` once the event is answered: the commands first,
   * otherwise the backend exchange under the conversation key and the reply's
   * messages, all sent to the chat the message came from.
   */
  function Respond(message: string, messageType: string, userId: string, groupId: string, cfg: Config,
                   picture: Option<string>, events: seq<StreamEvent>, fallback: string, lib: JsonLib,
                   cache: map<string, string>, lastActive: map<string, real>): Outcome
  {
    match Instruction(message, picture)
    case Handled(sent) => Outcome(Accepted, Deliveries(cfg.botToken, userId, groupId, sent), cache, lastActive)
    case FailedAfter(sent) => Outcome(Crashed, Deliveries(cfg.botToken, userId, groupId, sent), cache, lastActive)
    case NotCommand =>
      var key := ConversationKey(messageType, userId, groupId);
      var p := Run(events, key, lib, Start(cache, lastActive));
      var msgs := ReplyMessages(userId, Finish(p, fallback), lib);
      Outcome(Accepted, Deliveries(cfg.botToken, userId, groupId, msgs), p.cache, p.lastActive)
  }

  /** Whatever the answer, every message goes to the group when there is a group id and to the user otherwise. */
  lemma {:induction false} RespondStaysInChat(message: string, messageType: string, userId: string, groupId: string,
                                             cfg: Config, picture: Option<string>, events: seq<StreamEvent>,
                                             fallback: string, lib: JsonLib,
                                             cache: map<string, string>, lastActive: map<string, real>)
    ensures var r := Respond(message, messageType, userId, groupId, cfg, picture, events, fallback, lib, cache, lastActive);
      forall i :: 0 <= i < |r.sent| ==>
        r.sent[i].url == (if groupId != "" then GroupEndpoint else PrivateEndpoint) &&
        (r.sent[i].payload.ToGroup? <==> groupId != "") &&
        (r.sent[i].payload.ToUser? ==> r.sent[i].payload.userId == userId)
  {
    match Instruction(message, picture)
    case Handled(sent) => DeliveriesShareTarget(cfg.botToken, userId, groupId, sent);
    case FailedAfter(sent) => DeliveriesShareTarget(cfg.botToken, userId, groupId, sent);
    case NotCommand =>
      var key := ConversationKey(messageType, userId, groupId);
      var p := Run(events, key, lib, Start(cache, lastActive));
      DeliveriesShareTarget(cfg.botToken, userId, groupId, ReplyMessages(userId, Finish(p, fallback), lib));
  }

  /** A missing or empty body is rejected, with nothing sent and no session touched. */
  lemma {:induction false} EmptyEventRejected(body: Option<map<string, Json>>, segs: seq<Segment>, cfg: Config,
                                             picture: Option<string>, events: seq<StreamEvent>, fallback: string,
                                             lib: JsonLib, cache: map<string, string>, lastActive: map<string, real>)
    requires body.None? || body.value == map[]
    ensures Handle(body, segs, cfg, picture, events, fallback, lib, cache, lastActive) == Outcome(Rejected, [], cache, lastActive)
  {
  }

  /** A group message that does not mention the bot gets no reply and touches no session. */
  lemma {:induction false} UnmentionedGroupIgnored(event: map<string, Json>, segs: seq<Segment>, cfg: Config,
                                                  picture: Option<string>, events: seq<StreamEvent>, fallback: string,
                                                  lib: JsonLib, cache: map<string, string>, lastActive: map<string, real>)
    requires event != map[] && Get(event, "message_type") == JString("group") && !MentionsBot(segs, cfg.botQq)
    ensures Handle(Some(event), segs, cfg, picture, events, fallback, lib, cache, lastActive) == Outcome(Accepted, [], cache, lastActive)
  {
  }

  /** A message with blank text and no image or audio URL gets no reply and touches no session. */
  lemma {:induction false} BlankMessageIgnored(event: map<string, Json>, segs: seq<Segment>, cfg: Config,
                                              picture: Option<string>, events: seq<StreamEvent>, fallback: string,
                                              lib: JsonLib, cache: map<string, string>, lastActive: map<string, real>)
    requires event != map[] && Blank(TextOf(segs)) && ImagesOf(segs) == [] && AudiosOf(segs) == []
    ensures Handle(Some(event), segs, cfg, picture, events, fallback, lib, cache, lastActive) == Outcome(Accepted, [], cache, lastActive)
  {
    BlankMessage(segs);
    StripEmptyIffBlank(UserMessage(segs));
  }

  /** An answered message with an image or audio URL is never dropped as blank, whatever its text. */
  lemma {:induction false} AttachmentsAreAnswered(event: map<string, Json>, segs: seq<Segment>, cfg: Config)
    requires IsChat(event) && Get(event, "message_type") == JString("private")
    requires ImagesOf(segs) != [] || AudiosOf(segs) != []
    ensures Answered(event, segs, cfg)
  {
    BlankMessage(segs);
    StripEmptyIffBlank(UserMessage(segs));
  }

  /**
   * A command never reaches the backend: the outcome does not depend on the stream
   * or the fallback, no session is touched, and the command's messages are sent.
   */
  lemma {:induction false} CommandSkipsBackend(event: map<string, Json>, segs: seq<Segment>, cfg: Config,
                                              picture: Option<string>, events: seq<StreamEvent>, fallback: string,
                                              otherEvents: seq<StreamEvent>, otherFallback: string,
                                              lib: JsonLib, cache: map<string, string>, lastActive: map<string, real>)
    requires event != map[] && Answered(event, segs, cfg)
    requires !Instruction(UserMessage(segs), picture).NotCommand?
    ensures var r := Handle(Some(event), segs, cfg, picture, events, fallback, lib, cache, lastActive);
      r == Handle(Some(event), segs, cfg, picture, otherEvents, otherFallback, lib, cache, lastActive) &&
      r.cache == cache && r.lastActive == lastActive &&
      r.sent == Deliveries(cfg.botToken, UserIdOf(event, lib), GroupIdOf(event, lib), Instruction(UserMessage(segs), picture).sent)
  {
    var message := UserMessage(segs);
    var kind := Get(event, "message_type").s;
    var userId := UserIdOf(event, lib);
    var groupId := GroupIdOf(event, lib);
    var c := Instruction(message, picture);
    var expected := Outcome(if c.Handled? then Accepted else Crashed, Deliveries(cfg.botToken, userId, groupId, c.sent), cache, lastActive);
    assert Respond(message, kind, userId, groupId, cfg, picture, events, fallback, lib, cache, lastActive) == expected;
    assert Respond(message, kind, userId, groupId, cfg, picture, otherEvents, otherFallback, lib, cache, lastActive) == expected;
  }

  /**
   * A message for the backend changes only its own conversation key: the key ends
   * up holding the last conversation id the stream delivered before any error,
   * stamped with its arrival, and every other session is as it was.
   */
  lemma {:induction false} BackendTouchesOwnKey(event: map<string, Json>, segs: seq<Segment>, cfg: Config,
                                               picture: Option<string>, events: seq<StreamEvent>, fallback: string,
                                               lib: JsonLib, cache: map<string, string>, lastActive: map<string, real>)
    requires event != map[] && Answered(event, segs, cfg)
    requires Instruction(UserMessage(segs), picture).NotCommand?
    ensures var key := ConversationKey(Get(event, "message_type").s, UserIdOf(event, lib), GroupIdOf(event, lib));
      var r := Handle(Some(event), segs, cfg, picture, events, fallback, lib, cache, lastActive);
      r.status == Accepted &&
      r.cache == Filed(cache, key, LastId(events)) &&
      r.lastActive == Filed(lastActive, key, LastSeen(events))
  {
    var key := ConversationKey(Get(event, "message_type").s, UserIdOf(event, lib), GroupIdOf(event, lib));
    RunConversation(events, key, lib, Start(cache, lastActive));
    RunActivity(events, key, lib, Start(cache, lastActive));
  }

  /** Every message sent goes to the group for a group chat and to the user for a private one. */
  lemma {:induction false} RepliesStayInChat(event: map<string, Json>, segs: seq<Segment>, cfg: Config,
                                            picture: Option<string>, events: seq<StreamEvent>, fallback: string,
                                            lib: JsonLib, cache: map<string, string>, lastActive: map<string, real>)
    requires event != map[]
    ensures var r := Handle(Some(event), segs, cfg, picture, events, fallback, lib, cache, lastActive);
      var groupId := GroupIdOf(event, lib);
      forall i :: 0 <= i < |r.sent| ==>
        r.sent[i].url == (if groupId != "" then GroupEndpoint else PrivateEndpoint) &&
        (r.sent[i].payload.ToGroup? <==> groupId != "") &&
        (r.sent[i].payload.ToUser? ==> r.sent[i].payload.userId == UserIdOf(event, lib))
  {
    if Answered(event, segs, cfg) {
      RespondStaysInChat(UserMessage(segs), Get(event, "message_type").s, UserIdOf(event, lib), GroupIdOf(event, lib),
                         cfg, picture, events, fallback, lib, cache, lastActive);
    }
  }

  /**
   * `coze_callback` against the session store: screens the event, normalises its
   * segments, tries the commands, and otherwise runs the backend exchange and
   * sends the reply's parts.
   */
  method Callback(store: SessionStore, body: Option<map<string, Json>>, segs: seq<Segment>, cfg: Config,
                  picture: Option<string>, events: seq<StreamEvent>, fallback: string, lib: JsonLib)
    returns (status: Status, sent: seq<Request>)
    requires store.Valid()
    modifies store
    ensures store.Valid()
    ensures Outcome(status, sent, store.cache, store.lastActive) ==
      Handle(body, segs, cfg, picture, events, fallback, lib, old(store.cache), old(store.lastActive))
  {
    if body.None? || body.value == map[] {
      return Rejected, [];
    }
    var event := body.value;
    if Get(event, "post_type") != JString("message") {
      assert !IsChat(event);
      return Accepted, [];
    }
    var messageType := Get(event, "message_type");
    if messageType != JString("private") && messageType != JString("group") {
      assert !IsChat(event);
      return Accepted, [];
    }
    var userId := Str(Get(event, "user_id"), lib);
    var groupId := if messageType == JString("group") then Str(Get(event, "group_id"), lib) else "";
    var message, atMe := Normalize(segs, cfg.botQq);
    if messageType == JString("group") && !atMe {
      assert !Answered(event, segs, cfg);
      return Accepted, [];
    }
    if Strip(message) == "" {
      assert !Answered(event, segs, cfg);
      return Accepted, [];
    }
    assert Answered(event, segs, cfg);
    assert userId == UserIdOf(event, lib) && groupId == GroupIdOf(event, lib);
    var command := Instruction(message, picture);
    if command.Handled? {
      return Accepted, Deliveries(cfg.botToken, userId, groupId, command.sent);
    }
    if command.FailedAfter? {
      return Crashed, Deliveries(cfg.botToken, userId, groupId, command.sent);
    }
    var key := ConversationKey(messageType.s, userId, groupId);
    var reply := Reconcile(store, key, events, fallback, lib);
    status, sent := Accepted, Deliveries(cfg.botToken, userId, groupId, ReplyMessages(userId, reply, lib));
  }
}
