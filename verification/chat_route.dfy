/**
 * The chat endpoint around the tools: the checks a `POST` makes before it
 * persists anything or starts generating, the static mapping from model id
 * to system prompt and tool set, the completion callback, and `DELETE`.
 */
module ChatRoute {
  import opened Options
  import opened Http
  import opened Store

  const CanvasModelId := "gpt-4o-canvas"

  /** The step budget: at most this many model-call/tool-call rounds per request. */
  const MaxSteps := 5

  datatype ToolName = CreateDocumentTool | UpdateDocumentTool | RequestSuggestionsTool | GetWeatherTool

  datatype SystemPrompt = CanvasPrompt | RegularPrompt

  /** An entry of the configured model list. */
  datatype ModelInfo = ModelInfo(id: string, apiIdentifier: string)

  /** The arguments the endpoint passes to the text generation call. */
  datatype GenerationConfig = GenerationConfig(
    apiIdentifier: string,
    system: SystemPrompt,
    activeTools: seq<ToolName>,
    maxSteps: nat)

  const CanvasTools: seq<ToolName> := [CreateDocumentTool, UpdateDocumentTool, RequestSuggestionsTool]
  const WeatherTools: seq<ToolName> := [GetWeatherTool]

  /** A tool that reads or writes documents. */
  predicate IsDocumentTool(t: ToolName) {
    t != GetWeatherTool
  }

  /** `models.find`: the first configured model with the requested id. */
  function FindModel(models: seq<ModelInfo>, modelId: string): (r: Option<ModelInfo>)
    ensures r.None? <==> forall i :: 0 <= i < |models| ==> models[i].id != modelId
    ensures r.Some? ==> exists i :: 0 <= i < |models| && models[i] == r.value && models[i].id == modelId
                                  && forall j :: 0 <= j < i ==> models[j].id != modelId
    decreases |models|
  {
    if |models| == 0 then None
    else if models[0].id == modelId then Some(models[0])
    else
      var r := FindModel(models[1..], modelId);
      assert r.Some? ==> exists i :: 0 <= i < |models[1..]| && models[1..][i] == r.value && r.value.id == modelId
                                     && forall j :: 0 <= j < i ==> models[1..][j].id != modelId;
      assert r.Some? ==> exists i :: 1 <= i < |models| && models[i] == r.value && r.value.id == modelId
                                     && forall j :: 0 <= j < i ==> models[j].id != modelId by {
        if r.Some? {
          var k :| 0 <= k < |models[1..]| && models[1..][k] == r.value && r.value.id == modelId
                   && forall j :: 0 <= j < k ==> models[1..][j].id != modelId;
          assert models[k + 1] == r.value;
          forall j | 0 <= j < k + 1 ensures models[j].id != modelId {
            if j > 0 {
              assert models[j] == models[1..][j - 1];
            }
          }
        }
      }
      r
  }

  /**
   * The mode mapping: the canvas model gets the canvas prompt and exactly
   * the three document tools; any other model gets the regular prompt and
   * only the weather tool. The step budget is the same for both.
   */
  function ConfigFor(model: ModelInfo, modelId: string): (c: GenerationConfig)
    ensures c.apiIdentifier == model.apiIdentifier
    ensures c.maxSteps == MaxSteps
    ensures c.system == CanvasPrompt <==> modelId == CanvasModelId
    ensures |c.activeTools| > 0
    ensures forall i :: 0 <= i < |c.activeTools| ==> (IsDocumentTool(c.activeTools[i]) <==> modelId == CanvasModelId)
    ensures modelId == CanvasModelId <==>
              CreateDocumentTool in c.activeTools && UpdateDocumentTool in c.activeTools
              && RequestSuggestionsTool in c.activeTools
    ensures GetWeatherTool in c.activeTools <==> modelId != CanvasModelId
  {
    GenerationConfig(
      model.apiIdentifier,
      if modelId == CanvasModelId then CanvasPrompt else RegularPrompt,
      if modelId == CanvasModelId then CanvasTools else WeatherTools,
      MaxSteps)
  }

  /** The document tools are offered exactly when the canvas prompt is used. */
  lemma PromptMatchesTools(model: ModelInfo, modelId: string)
    ensures var c := ConfigFor(model, modelId);
            c.system == CanvasPrompt <==> exists i :: 0 <= i < |c.activeTools| && IsDocumentTool(c.activeTools[i])
  {
    var c := ConfigFor(model, modelId);
    if modelId == CanvasModelId {
      assert IsDocumentTool(c.activeTools[0]);
    }
  }

  /** A message after conversion for the model (its content is kept abstract as text). */
  datatype CoreMessage = CoreMessage(role: Role, content: string)

  /** What handling a `POST` does, in order. */
  datatype Effect =
    | SaveChat(chat: Chat)
    | SaveMessage(message: MessageRow)
    | StartGeneration(config: GenerationConfig)
    | Respond(status: Status)

  predicate IsWrite(e: Effect) {
    e.SaveChat? || e.SaveMessage?
  }

  /** The body parses and the three request-level checks all pass. */
  predicate Admitted(bodyParses: bool, user: Option<User>, models: seq<ModelInfo>, modelId: string,
                     userMessage: Option<CoreMessage>) {
    bodyParses && user.Some? && FindModel(models, modelId).Some? && userMessage.Some?
  }

  /**
   * The awaited call of an admitted request that throws, if any: the chat
   * lookup, the title generation, the chat save or the message save. A
   * thrown error is not caught, so the request is answered with 500.
   */
  datatype Failure = NoFailure | ChatLookupFails | TitleFails | ChatSaveFails | MessageSaveFails

  /** The failing call is one the request actually makes: the title and chat save happen only for a new chat. */
  predicate Interrupted(failure: Failure, existingChat: Option<Chat>) {
    || failure == ChatLookupFails
    || failure == MessageSaveFails
    || (existingChat.None? && (failure == TitleFails || failure == ChatSaveFails))
  }

  /**
   * `POST /api/chat` up to the start of generation. `bodyParses` is false
   * when the body is not JSON, `userMessage` is the most recent user message
   * of the request, `existingChat` what the chat lookup found, `failure` the
   * call that throws, and `title`, `messageId`, `now` the generated title,
   * fresh id and clock reading.
   */
  function HandlePost(bodyParses: bool, user: Option<User>, chatId: string, modelId: string, models: seq<ModelInfo>,
                      userMessage: Option<CoreMessage>, existingChat: Option<Chat>, failure: Failure,
                      title: string, messageId: string, now: int): (effects: seq<Effect>)
    ensures !bodyParses ==> effects == [Respond(InternalError)]
    ensures bodyParses && user.None? ==> effects == [Respond(Unauthorized)]
    ensures bodyParses && user.Some? && FindModel(models, modelId).None? ==> effects == [Respond(NotFound)]
    ensures bodyParses && user.Some? && FindModel(models, modelId).Some? && userMessage.None? ==>
              effects == [Respond(BadRequest)]
    ensures (exists i :: 0 <= i < |effects| && IsWrite(effects[i])) ==>
              Admitted(bodyParses, user, models, modelId, userMessage)
    ensures Admitted(bodyParses, user, models, modelId, userMessage) && !Interrupted(failure, existingChat) ==>
              && |effects| == (if existingChat.None? then 3 else 2)
              && (existingChat.None? ==> effects[0] == SaveChat(Chat(chatId, user.value.id, title)))
              && effects[|effects| - 2] == SaveMessage(MessageRow(messageId, chatId, userMessage.value.role,
                                                                 userMessage.value.content, now))
              && effects[|effects| - 1] == StartGeneration(ConfigFor(FindModel(models, modelId).value, modelId))
    ensures Admitted(bodyParses, user, models, modelId, userMessage) && Interrupted(failure, existingChat) ==>
              && 1 <= |effects| <= 2
              && effects[|effects| - 1] == Respond(InternalError)
              && (|effects| == 2 <==> failure == MessageSaveFails && existingChat.None?)
              && (|effects| == 2 ==> effects[0] == SaveChat(Chat(chatId, user.value.id, title)))
  {
    if !bodyParses then [Respond(InternalError)]
    else if user.None? then [Respond(Unauthorized)]
    else
      var model := FindModel(models, modelId);
      if model.None? then [Respond(NotFound)]
      else if userMessage.None? then [Respond(BadRequest)]
      else if failure == ChatLookupFails then [Respond(InternalError)]
      else if existingChat.None? && (failure == TitleFails || failure == ChatSaveFails) then [Respond(InternalError)]
      else
        var saveChat := if existingChat.None? then [SaveChat(Chat(chatId, user.value.id, title))] else [];
        var message := userMessage.value;
        if failure == MessageSaveFails then saveChat + [Respond(InternalError)]
        else
          saveChat
          + [SaveMessage(MessageRow(messageId, chatId, message.role, message.content, now))]
          + [StartGeneration(ConfigFor(model.value, modelId))]
  }

  /**
   * Every write of a `POST` happens before generation starts; an error
   * response is the last thing that happens and no generation follows it;
   * a request refused by a check writes nothing; and generation starts
   * exactly when the request is admitted and none of its calls throws.
   */
  lemma PersistenceFollowsGating(bodyParses: bool, user: Option<User>, chatId: string, modelId: string,
                                 models: seq<ModelInfo>, userMessage: Option<CoreMessage>,
                                 existingChat: Option<Chat>, failure: Failure,
                                 title: string, messageId: string, now: int)
    ensures var effects := HandlePost(bodyParses, user, chatId, modelId, models, userMessage, existingChat, failure,
                                      title, messageId, now);
            && (forall i, j ::
                  (0 <= i < |effects| && 0 <= j < |effects| && IsWrite(effects[i]) && effects[j].StartGeneration?)
                  ==> i < j)
            && (forall i :: 0 <= i < |effects| && effects[i].Respond? ==>
                  i == |effects| - 1 && forall j :: 0 <= j < |effects| ==> !effects[j].StartGeneration?)
            && (!Admitted(bodyParses, user, models, modelId, userMessage) ==> |effects| == 1 && effects[0].Respond?)
            && (Admitted(bodyParses, user, models, modelId, userMessage) && !Interrupted(failure, existingChat) <==>
                  exists j :: 0 <= j < |effects| && effects[j].StartGeneration?)
  {
    var effects := HandlePost(bodyParses, user, chatId, modelId, models, userMessage, existingChat, failure,
                              title, messageId, now);
    if Admitted(bodyParses, user, models, modelId, userMessage) && !Interrupted(failure, existingChat) {
      assert effects[|effects| - 1].StartGeneration?;
    }
  }

  /** A response message from the model, after incomplete tool calls were removed. */
  datatype ResponseMessage = ResponseMessage(role: Role, content: string)

  /** An operation on the out-of-band data channel at completion. */
  datatype ChannelOp = Annotate(messageIdFromServer: string) | Close

  /** The rows the completion callback saved and its channel operations in order. */
  datatype FinishOutcome = FinishOutcome(saved: seq<MessageRow>, channel: seq<ChannelOp>)

  /** The positions of the assistant messages, in increasing order. */
  function AssistantPositions(messages: seq<ResponseMessage>): (idx: seq<nat>)
    ensures forall k :: 0 <= k < |idx| ==> idx[k] < |messages| && messages[idx[k]].role == AssistantRole
    ensures forall i :: 0 <= i < |messages| && messages[i].role == AssistantRole ==> i in idx
    ensures forall j, k :: 0 <= j < k < |idx| ==> idx[j] < idx[k]
    decreases |messages|
  {
    if |messages| == 0 then []
    else
      var n := |messages| - 1;
      assert forall i :: 0 <= i < n ==> messages[..n][i] == messages[i];
      AssistantPositions(messages[..n]) + (if messages[n].role == AssistantRole then [n] else [])
  }

  /**
   * `onFinish`: for an identified user, store every sanitized response
   * message under a fresh id and annotate each assistant message with the id
   * it is stored under; a failed save is swallowed. Closing the channel is
   * always the last operation, and it happens once.
   */
  function OnFinish(user: Option<User>, chatId: string, sanitized: seq<ResponseMessage>,
                    freshId: nat -> string, now: int, saveSucceeds: bool): (r: FinishOutcome)
    ensures |r.channel| >= 1 && r.channel[|r.channel| - 1] == Close
    ensures forall k :: 0 <= k < |r.channel| - 1 ==> r.channel[k].Annotate?
    ensures !Identified(user) ==> r == FinishOutcome([], [Close])
    ensures r.saved != [] ==> Identified(user) && saveSucceeds
    ensures Identified(user) && saveSucceeds ==>
              && |r.saved| == |sanitized|
              && forall i :: 0 <= i < |sanitized| ==>
                   r.saved[i] == MessageRow(freshId(i), chatId, sanitized[i].role, sanitized[i].content, now)
    ensures Identified(user) ==>
              && |r.channel| == |AssistantPositions(sanitized)| + 1
              && forall k :: 0 <= k < |r.channel| - 1 ==>
                   r.channel[k].messageIdFromServer == freshId(AssistantPositions(sanitized)[k])
  {
    if Identified(user) then
      var rows := seq(|sanitized|, i requires 0 <= i < |sanitized| =>
                        MessageRow(freshId(i), chatId, sanitized[i].role, sanitized[i].content, now));
      var positions := AssistantPositions(sanitized);
      var annotations := seq(|positions|, k requires 0 <= k < |positions| => Annotate(freshId(positions[k])));
      FinishOutcome(if saveSucceeds then rows else [], annotations + [Close])
    else
      FinishOutcome([], [Close])
  }

  /**
   * When the save succeeds, the annotations name exactly the stored
   * assistant messages, in order: the k-th annotation carries the id of the
   * k-th assistant row.
   */
  lemma AnnotationsMatchStoredAssistants(user: Option<User>, chatId: string, sanitized: seq<ResponseMessage>,
                                         freshId: nat -> string, now: int, k: nat)
    requires Identified(user)
    requires k < |AssistantPositions(sanitized)|
    ensures var r := OnFinish(user, chatId, sanitized, freshId, now, true);
            var row := r.saved[AssistantPositions(sanitized)[k]];
            row.role == AssistantRole && r.channel[k] == Annotate(row.id)
  {
  }

  /** The chat table and the message table. */
  datatype ChatStore = ChatStore(chats: seq<Chat>, messages: seq<MessageRow>)

  /** `getChatById`: the first chat with the id. */
  function FindChat(chats: seq<Chat>, id: string): (r: Option<Chat>)
    ensures r.None? <==> forall i :: 0 <= i < |chats| ==> chats[i].id != id
    ensures r.Some? ==> r.value in chats && r.value.id == id
    decreases |chats|
  {
    if |chats| == 0 then None
    else if chats[0].id == id then Some(chats[0])
    else FindChat(chats[1..], id)
  }

  function RemoveChats(chats: seq<Chat>, id: string): (r: seq<Chat>)
    ensures forall c :: c in r <==> c in chats && c.id != id
    decreases |chats|
  {
    if |chats| == 0 then []
    else (if chats[0].id == id then [] else [chats[0]]) + RemoveChats(chats[1..], id)
  }

  function RemoveMessages(messages: seq<MessageRow>, chatId: string): (r: seq<MessageRow>)
    ensures forall m :: m in r <==> m in messages && m.chatId != chatId
    decreases |messages|
  {
    if |messages| == 0 then []
    else (if messages[0].chatId == chatId then [] else [messages[0]]) + RemoveMessages(messages[1..], chatId)
  }

  datatype DeleteOutcome = DeleteOutcome(status: Status, store: ChatStore)

  /**
   * `DELETE /api/chat?id=…`. `lookupFails` and `deleteFails` stand for the
   * store raising an error in the lookup or in the delete. A chat that is
   * not found makes the owner check read a field of nothing, which the
   * handler's catch turns into 500.
   */
  function HandleDelete(id: string, user: Option<User>, store: ChatStore,
                        lookupFails: bool, deleteFails: bool): (r: DeleteOutcome)
    ensures id == "" ==> r.status == NotFound
    ensures id != "" && user.None? ==> r.status == Unauthorized
    ensures (id != "" && user.Some? && !lookupFails && FindChat(store.chats, id).Some?
             && FindChat(store.chats, id).value.userId != user.value.id) ==> r.status == Unauthorized
    ensures id != "" && user.Some? && (lookupFails || FindChat(store.chats, id).None?) ==> r.status == InternalError
    ensures (id != "" && user.Some? && !lookupFails && FindChat(store.chats, id).Some?
             && FindChat(store.chats, id).value.userId == user.value.id && deleteFails) ==> r.status == InternalError
    ensures r.status == Ok <==>
              && id != "" && user.Some? && !lookupFails && !deleteFails
              && FindChat(store.chats, id).Some? && FindChat(store.chats, id).value.userId == user.value.id
    ensures r.status != Ok ==> r.store == store
    ensures r.status == Ok ==>
              && (forall c :: c in r.store.chats <==> c in store.chats && c.id != id)
              && (forall m :: m in r.store.messages <==> m in store.messages && m.chatId != id)
  {
    if id == "" then DeleteOutcome(NotFound, store)
    else if user.None? then DeleteOutcome(Unauthorized, store)
    else if lookupFails then DeleteOutcome(InternalError, store)
    else
      match FindChat(store.chats, id)
      case None => DeleteOutcome(InternalError, store)
      case Some(chat) =>
        if chat.userId != user.value.id then DeleteOutcome(Unauthorized, store)
        else if deleteFails then DeleteOutcome(InternalError, store)
        else DeleteOutcome(Ok, ChatStore(RemoveChats(store.chats, id), RemoveMessages(store.messages, id)))
  }

  /** Only the owner can delete: a successful delete removed a chat the caller owned. */
  lemma OnlyOwnerDeletes(id: string, user: Option<User>, store: ChatStore, lookupFails: bool, deleteFails: bool)
    ensures var r := HandleDelete(id, user, store, lookupFails, deleteFails);
            r.store != store ==>
              r.status == Ok && user.Some?
              && exists c :: c in store.chats && c.id == id && c.userId == user.value.id
  {
    var r := HandleDelete(id, user, store, lookupFails, deleteFails);
    if r.store != store {
      assert FindChat(store.chats, id).value in store.chats;
    }
  }
}
