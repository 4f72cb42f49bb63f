/** The chat page's conversation state and the handlers that change it: typed
    submit with an optimistic append and a rollback, the voice round trip,
    starting a new chat, switching to a stored conversation, and the
    microphone check.  Every network result, the recording hook's results and
    every `new Date().toISOString()` value is an input. */
module ChatPage {
  import opened Options
  import opened JsText
  import opened Json

  datatype Role = User | Assistant

  /** A message object.  `id` stands for the object's identity: two messages
      with equal fields are still different objects, and the rollback removes
      a message by identity (`!==`), so every message object created on the
      page gets an `id` no other live message has. */
  datatype Message = Message(id: nat, role: Role, content: string, timestamp: string)

  /** A message reduced to its role and content, as it is sent to the server. */
  datatype ApiMessage = ApiMessage(role: Role, content: string)

  /** A stored conversation; `lastUpdated` is optional. Times are milliseconds. */
  datatype ChatHistory = ChatHistory(
    id: string, title: string, timestamp: int, messages: seq<Message>, lastUpdated: Option<int>)

  /* ---------------------------------------------------------------------- */
  /* Pure list updates                                                       */
  /* ---------------------------------------------------------------------- */

  /** `messages.map(m => ({ role: m.role, content: m.content }))`. */
  function ForApi(ms: seq<Message>): (r: seq<ApiMessage>)
    ensures |r| == |ms|
    ensures forall i :: 0 <= i < |ms| ==> r[i] == ApiMessage(ms[i].role, ms[i].content)
  {
    seq(|ms|, i requires 0 <= i < |ms| => ApiMessage(ms[i].role, ms[i].content))
  }

  predicate DistinctIds(ms: seq<Message>) {
    forall i, j :: 0 <= i < j < |ms| ==> ms[i].id != ms[j].id
  }

  predicate IdsBelow(ms: seq<Message>, n: nat) {
    forall i :: 0 <= i < |ms| ==> ms[i].id < n
  }

  /** Appending a new object keeps the identities distinct and below the
      next one to be handed out. */
  lemma AppendFresh(ms: seq<Message>, m: Message, n: nat)
    requires IdsBelow(ms, n) && DistinctIds(ms) && m.id == n
    ensures IdsBelow(ms + [m], n + 1) && DistinctIds(ms + [m])
  {
  }

  /** `prev.filter(msg => msg !== target)`: drops exactly the messages that are
      the object `id` names and keeps the rest in order. */
  function Without(ms: seq<Message>, id: nat): (r: seq<Message>)
    ensures forall m :: m in r <==> m in ms && m.id != id
    ensures |r| <= |ms|
  {
    if ms == [] then []
    else (if ms[0].id == id then [] else [ms[0]]) + Without(ms[1..], id)
  }

  /** Removing an object that was appended to a list not containing it gives
      back the list as it was, every earlier message in its place. */
  lemma {:induction false} WithoutAppended(ms: seq<Message>, m: Message)
    requires forall i :: 0 <= i < |ms| ==> ms[i].id != m.id
    ensures Without(ms + [m], m.id) == ms
  {
    if ms == [] {
      assert [] + [m] == [m];
      assert Without([m], m.id) == [] + Without([], m.id);
    } else {
      assert (ms + [m])[0] == ms[0];
      assert (ms + [m])[1..] == ms[1..] + [m];
      WithoutAppended(ms[1..], m);
      assert [ms[0]] + ms[1..] == ms;
    }
  }

  /** `messages.filter(message => message.role === 'assistant')`: the replies
      shown in the side panel. */
  function AssistantMessages(ms: seq<Message>): (r: seq<Message>)
    ensures forall m :: m in r <==> m in ms && m.role == Assistant
    ensures |r| <= |ms|
  {
    if ms == [] then []
    else (if ms[0].role == Assistant then [ms[0]] else []) + AssistantMessages(ms[1..])
  }

  /** The filter distributes over appending, so appending a user message and
      a reply adds exactly the reply to the side panel. */
  lemma {:induction false} AssistantMessagesAppend(a: seq<Message>, b: seq<Message>)
    ensures AssistantMessages(a + b) == AssistantMessages(a) + AssistantMessages(b)
  {
    if a == [] {
      assert a + b == b;
    } else {
      assert (a + b)[0] == a[0] && (a + b)[1..] == a[1..] + b;
      AssistantMessagesAppend(a[1..], b);
    }
  }

  /** `convo.messages.map(m => ({ ...m, timestamp: m.timestamp }))`: new
      objects (fresh identities from `base` on) with the same fields. */
  function Copies(ms: seq<Message>, base: nat): (r: seq<Message>)
    ensures |r| == |ms|
    ensures forall i :: 0 <= i < |ms| ==>
                          r[i] == Message(base + i, ms[i].role, ms[i].content, ms[i].timestamp)
  {
    seq(|ms|, i requires 0 <= i < |ms| => Message(base + i, ms[i].role, ms[i].content, ms[i].timestamp))
  }

  /* ---------------------------------------------------------------------- */
  /* Outcomes of the network calls                                           */
  /* ---------------------------------------------------------------------- */

  /** What `fetch('/api/chat', ...)` and the reading of its body produced. */
  datatype ChatReply =
    | ChatFetchThrew(message: string)                       // the request itself failed
    | ChatHttpError(statusText: string, error: Option<string>)  // not ok; the body's `error`, if any
    | ChatBodyUnreadable(message: string)                   // ok, but the body is not JSON
    | ChatHttpOk(response: Option<string>)                  // ok; the body's `response`, if any

  /** The result of the `try` block of the submit handler: the reply to show,
      or the message of the error it threw. */
  datatype Answer = Answered(content: string) | Failed(reason: string)

  const EmptyAnswerReason: string := "Empty response content from AI."
  const FailedStatusPrefix: string := "AI request failed: "

  function SubmitOutcome(reply: ChatReply): (a: Answer)
    // Only a successful response with non-empty content is an answer.
    ensures a.Answered? <==> reply.ChatHttpOk? && reply.response.Some? && reply.response.value != []
    ensures a.Answered? ==> a.content == reply.response.value
    // An empty or missing `response` is a failure of its own.
    ensures reply.ChatHttpOk? && a.Failed? ==> a.reason == EmptyAnswerReason
    // A non-ok status reports the server's `error`, else the status text.
    ensures reply.ChatHttpError? && reply.error.Some? && reply.error.value != [] ==>
              a == Failed(reply.error.value)
    ensures reply.ChatHttpError? && (reply.error.None? || reply.error.value == []) ==>
              a == Failed(FailedStatusPrefix + reply.statusText)
    // A thrown error carries its own message.
    ensures (reply.ChatFetchThrew? || reply.ChatBodyUnreadable?) ==> a == Failed(reply.message)
  {
    match reply
    case ChatFetchThrew(m) => Failed(m)
    case ChatHttpError(statusText, error) =>
      if error.Some? && error.value != [] then Failed(error.value)
      else Failed(FailedStatusPrefix + statusText)
    case ChatBodyUnreadable(m) => Failed(m)
    case ChatHttpOk(response) =>
      if response.Some? && response.value != [] then Answered(response.value)
      else Failed(EmptyAnswerReason)
  }

  /** The text of the error notification the submit handler shows. */
  function ErrorToast(reason: string): string {
    "Error: " + reason
  }

  /** What `response.text()` and `JSON.parse` made of a failed voice
      response's body: it could not be read, or it is this text, which parsed
      to this value (`None`: the parse threw). */
  datatype ErrorBodyRead = BodyUnreadable | BodyText(raw: string, parsed: Option<Json>)

  /** The error structure built for a failed voice response. */
  datatype ErrorPayload = ErrorPayload(error: Json, detail: Json)

  const DetailLimit: nat := 150
  const UnreadableDetail: string := "Could not read response body."

  function StatusDefaultError(status: nat): string {
    "Voice processing failed (" + Decimal(status) + ")"
  }

  function UnreadableError(status: nat): string {
    "Non-JSON or unreadable response from backend (" + Decimal(status) + ")"
  }

  function InvalidStructureError(status: nat): string {
    "Invalid JSON structure received (" + Decimal(status) + ")"
  }

  /** The body parsed to an object or array whose `detail` is truthy. */
  predicate DetailFromBackend(body: ErrorBodyRead) {
    body.BodyText? && body.parsed.Some? && IsObjectLike(body.parsed.value) &&
    Get(body.parsed.value, "detail").Found? && Truthy(Get(body.parsed.value, "detail").value)
  }

  /** The error payload of a failed voice response with this status. */
  function VoiceErrorPayload(status: nat, body: ErrorBodyRead): (p: ErrorPayload)
    // There is always an error text.
    ensures Truthy(p.error)
    // A parsed object without a usable `error` falls back to the status default.
    ensures body.BodyText? && body.parsed.Some? && IsObjectLike(body.parsed.value) ==>
              p.error == OrElse(Get(body.parsed.value, "error"), JStr(StatusDefaultError(status)))
    // A body that parsed to something other than an object says so ...
    ensures body.BodyText? && body.parsed.Some? && !IsObjectLike(body.parsed.value) ==>
              p.error == JStr(InvalidStructureError(status))
    // ... and a body that could not be read or parsed says that.
    ensures body.BodyUnreadable? || (body.BodyText? && body.parsed.None?) ==>
              p.error == JStr(UnreadableError(status))
    // The backend's own detail is passed on as it is ...
    ensures DetailFromBackend(body) ==> p.detail == Get(body.parsed.value, "detail").value
    // ... and any other detail is a string of at most 150 characters, taken
    // from the start of the raw body whenever there is a raw body.
    ensures !DetailFromBackend(body) ==> p.detail.JStr? && |p.detail.s| <= DetailLimit
    ensures !DetailFromBackend(body) && body.BodyText? && (body.raw != [] || body.parsed.Some?) ==>
              p.detail == JStr(Prefix(body.raw, DetailLimit))
    ensures body.BodyUnreadable? || (body.BodyText? && body.raw == [] && body.parsed.None?) ==>
              p.detail == JStr(UnreadableDetail)
  {
    var unreadable := UnreadableError(status);
    match body
    case BodyUnreadable => ErrorPayload(JStr(unreadable), JStr(UnreadableDetail))
    case BodyText(raw, None) =>
      ErrorPayload(JStr(unreadable), JStr(if raw != [] then Prefix(raw, DetailLimit) else UnreadableDetail))
    case BodyText(raw, Some(j)) =>
      if IsObjectLike(j) then
        ErrorPayload(OrElse(Get(j, "error"), JStr(StatusDefaultError(status))),
                     OrElse(Get(j, "detail"), JStr(Prefix(raw, DetailLimit))))
      else
        ErrorPayload(JStr(InvalidStructureError(status)),
                     JStr(Prefix(raw, DetailLimit)))
  }

  /** What `stopRecording()` produced: it threw, or it resolved to a blob of
      this many bytes (`None`: there was no recorder, so no blob). */
  datatype StopResult = StopThrew | Stopped(blobSize: Option<nat>)

  /** The `transcription` and `reply` fields of a voice response (`None`:
      missing). */
  datatype VoiceData = VoiceData(transcription: Option<string>, reply: Option<string>)

  /** What `fetch('/api/voice-chat', ...)` and the reading of its body produced. */
  datatype VoiceResponse =
    | VoiceFetchThrew
    | VoiceHttpError(status: nat, body: ErrorBodyRead)
    | VoiceBodyUnreadable
    | VoiceHttpOk(data: VoiceData)

  /** Both fields are present and non-empty. */
  predicate Complete(d: VoiceData) {
    d.transcription.Some? && d.transcription.value != [] && d.reply.Some? && d.reply.value != []
  }

  /** How a press of the microphone button ended. */
  datatype VoiceEffect =
    | Unsupported                       // no getUserMedia: nothing happens
    | MicrophoneBlocked(reason: string) // the microphone check failed earlier
    | RecordingStarted
    | StopFailed                        // stopping threw
    | NoAudio                           // no blob, or under 1000 bytes
    | RequestFailed                     // the request or the body read threw
    | BackendError(payload: ErrorPayload)
    | Incomplete                        // transcription or reply missing
    | Added                             // transcription and reply appended

  const MinAudioBytes: nat := 1000

  /** The outcome of `navigator.mediaDevices.enumerateDevices()`: the kinds of
      the devices found, or `None` when the call threw. */
  datatype DeviceKind = AudioInput | AudioOutput | VideoInput

  /* ---------------------------------------------------------------------- */
  /* The page state                                                          */
  /* ---------------------------------------------------------------------- */

  class ChatPage {
    var messages: seq<Message>
    var inputMessage: string
    var isLoading: bool
    var currentConversationId: Option<string>
    var chatHistory: seq<ChatHistory>
    var microphoneError: Option<string>
    /** The identity the next message object created on the page receives. */
    var nextId: nat

    /** Every live message is a distinct object created before `nextId`. */
    ghost predicate Valid()
      reads this
    {
      IdsBelow(messages, nextId) && DistinctIds(messages)
    }

    /** The state a freshly mounted page starts from. */
    constructor ()
      ensures Valid()
      ensures messages == [] && inputMessage == [] && !isLoading
      ensures currentConversationId == None && chatHistory == [] && microphoneError == None
    {
      messages := [];
      inputMessage := [];
      isLoading := false;
      currentConversationId := None;
      chatHistory := [];
      microphoneError := None;
      nextId := 0;
    }

    /** Sending the typed text.  Blank input is ignored.  Otherwise the trimmed
        text is appended as a user message and the input cleared; the request
        carries every message up to and including it; then either the reply is
        appended, or the user message is removed again and the input restored.
        Loading ends false. Returns the request's message list, if one was
        sent, and the error shown, if any. */
    method HandleSubmit(reply: ChatReply, userTime: string, replyTime: string)
      returns (request: Option<seq<ApiMessage>>, errorToast: Option<string>)
      requires Valid()
      modifies this
      ensures Valid()
      ensures currentConversationId == old(currentConversationId) && chatHistory == old(chatHistory)
      ensures microphoneError == old(microphoneError)
      ensures Trim(old(inputMessage)) == [] ==>
                messages == old(messages) && inputMessage == old(inputMessage) &&
                isLoading == old(isLoading) && request == None && errorToast == None
      ensures Trim(old(inputMessage)) != [] ==>
                request == Some(ForApi(old(messages) + [Message(old(nextId), User, Trim(old(inputMessage)), userTime)])) &&
                !isLoading
      ensures Trim(old(inputMessage)) != [] && SubmitOutcome(reply).Answered? ==>
                messages == old(messages) + [Message(old(nextId), User, Trim(old(inputMessage)), userTime),
                                             Message(old(nextId) + 1, Assistant, SubmitOutcome(reply).content, replyTime)] &&
                inputMessage == [] && errorToast == None
      ensures Trim(old(inputMessage)) != [] && SubmitOutcome(reply).Failed? ==>
                messages == old(messages) && inputMessage == old(inputMessage) &&
                errorToast == Some(ErrorToast(SubmitOutcome(reply).reason))
    {
      var text := Trim(inputMessage);
      if text == [] {
        return None, None;
      }
      request, errorToast := Send(text, reply, userTime, replyTime);
    }

    /** A submit of the non-blank `text`: append it as a user message, clear the
        input, send the conversation so far, then settle on the answer. */
    method Send(text: string, reply: ChatReply, userTime: string, replyTime: string)
      returns (request: Option<seq<ApiMessage>>, errorToast: Option<string>)
      requires Valid()
      modifies this
      ensures Valid()
      ensures currentConversationId == old(currentConversationId) && chatHistory == old(chatHistory)
      ensures microphoneError == old(microphoneError)
      ensures request == Some(ForApi(old(messages) + [Message(old(nextId), User, text, userTime)])) && !isLoading
      ensures SubmitOutcome(reply).Answered? ==>
                messages == old(messages) + [Message(old(nextId), User, text, userTime),
                                             Message(old(nextId) + 1, Assistant, SubmitOutcome(reply).content, replyTime)] &&
                inputMessage == [] && errorToast == None
      ensures SubmitOutcome(reply).Failed? ==>
                messages == old(messages) && inputMessage == old(inputMessage) &&
                errorToast == Some(ErrorToast(SubmitOutcome(reply).reason))
    {
      var previousInput := inputMessage;
      var user := Append(User, text, userTime);
      inputMessage := [];
      isLoading := true;
      request := Some(ForApi(messages));
      errorToast := Settle(SubmitOutcome(reply), user, previousInput, replyTime);
      isLoading := false;
    }

    /** The end of a submit, once the request has settled: append the answer,
        or remove the optimistically added `user` message (the last one) and
        put the text it came from back into the input. */
    method Settle(outcome: Answer, user: Message, previousInput: string, replyTime: string)
      returns (errorToast: Option<string>)
      requires Valid() && messages != [] && messages[|messages| - 1] == user
      modifies this`messages, this`nextId, this`inputMessage
      ensures Valid()
      ensures outcome.Answered? ==>
                messages == old(messages) + [Message(old(nextId), Assistant, outcome.content, replyTime)] &&
                inputMessage == old(inputMessage) && errorToast == None
      ensures outcome.Failed? ==>
                messages == old(messages)[..|old(messages)| - 1] && inputMessage == previousInput &&
                errorToast == Some(ErrorToast(outcome.reason))
    {
      if outcome.Answered? {
        var ai := Append(Assistant, outcome.content, replyTime);
        errorToast := None;
      } else {
        var earlier := messages[..|messages| - 1];
        assert messages == earlier + [user];
        WithoutAppended(earlier, user);
        messages := Without(messages, user.id);
        inputMessage := previousInput;
        errorToast := Some(ErrorToast(outcome.reason));
      }
    }

    /** `setMessages(prev => [...prev, m])` for a new message object `m`,
        which receives the next identity. */
    method Append(role: Role, content: string, timestamp: string) returns (m: Message)
      requires Valid()
      modifies this`messages, this`nextId
      ensures Valid()
      ensures m == Message(old(nextId), role, content, timestamp)
      ensures messages == old(messages) + [m] && nextId == old(nextId) + 1
    {
      m := Message(nextId, role, content, timestamp);
      AppendFresh(messages, m, nextId);
      messages := messages + [m];
      nextId := nextId + 1;
    }

    /** The microphone button.  While recording: stop, refuse a missing or
        short recording, send it with the conversation so far as context, and
        append the transcription and then the reply only when both came back.
        Otherwise: refuse when the browser cannot record or the microphone
        check failed, else start recording.  Returns how it ended and the
        context sent, if any. */
    method HandleVoiceRecording(isRecording: bool, mediaSupported: bool, stop: StopResult,
                                response: VoiceResponse, userTime: string, replyTime: string)
      returns (effect: VoiceEffect, context: Option<seq<ApiMessage>>)
      requires Valid()
      modifies this
      ensures Valid()
      ensures inputMessage == old(inputMessage) && currentConversationId == old(currentConversationId)
      ensures chatHistory == old(chatHistory) && microphoneError == old(microphoneError)
      // Not recording: only the decision to start, nothing changes.
      ensures !isRecording ==>
                messages == old(messages) && isLoading == old(isLoading) && context == None &&
                effect == (if !mediaSupported then Unsupported
                           else if old(microphoneError).Some? && old(microphoneError).value != []
                           then MicrophoneBlocked(old(microphoneError).value)
                           else RecordingStarted)
      // Recording: loading is over on every path.
      ensures isRecording ==> !isLoading
      // A failed stop or a missing or short recording adds nothing and sends nothing.
      ensures isRecording && stop.StopThrew? ==> effect == StopFailed && context == None
      ensures isRecording && stop.Stopped? && (stop.blobSize.None? || stop.blobSize.value < MinAudioBytes) ==>
                effect == NoAudio && context == None
      // A recording long enough is sent with the conversation as it was.
      ensures isRecording && stop.Stopped? && stop.blobSize.Some? && stop.blobSize.value >= MinAudioBytes ==>
                context == Some(ForApi(old(messages)))
      ensures effect.BackendError? ==>
                response.VoiceHttpError? && effect.payload == VoiceErrorPayload(response.status, response.body)
      // Once sent: an error status is reported with its payload, a thrown
      // request or body read as a failed request, a partial answer as such.
      ensures isRecording && stop.Stopped? && stop.blobSize.Some? && stop.blobSize.value >= MinAudioBytes ==>
                (response.VoiceHttpError? ==> effect == BackendError(VoiceErrorPayload(response.status, response.body))) &&
                (response.VoiceFetchThrew? || response.VoiceBodyUnreadable? ==> effect == RequestFailed) &&
                (response.VoiceHttpOk? && !Complete(response.data) ==> effect == Incomplete)
      // Messages are added only when both texts came back, user message first.
      ensures effect.Added? <==>
                isRecording && stop.Stopped? && stop.blobSize.Some? && stop.blobSize.value >= MinAudioBytes &&
                response.VoiceHttpOk? && Complete(response.data)
      ensures effect.Added? ==>
                messages == old(messages) + [Message(old(nextId), User, response.data.transcription.value, userTime),
                                             Message(old(nextId) + 1, Assistant, response.data.reply.value, replyTime)]
      ensures !effect.Added? ==> messages == old(messages)
    {
      context := None;
      if !isRecording {
        if !mediaSupported {
          return Unsupported, None;
        }
        if microphoneError.Some? && microphoneError.value != [] {
          return MicrophoneBlocked(microphoneError.value), None;
        }
        return RecordingStarted, None;
      }
      isLoading := true;
      if stop.StopThrew? {
        isLoading := false;
        return StopFailed, None;
      }
      if stop.blobSize.None? || stop.blobSize.value < MinAudioBytes {
        isLoading := false;
        return NoAudio, None;
      }
      context := Some(ForApi(messages));
      match response {
        case VoiceFetchThrew =>
          isLoading := false;
          effect := RequestFailed;
        case VoiceHttpError(status, body) =>
          isLoading := false;
          effect := BackendError(VoiceErrorPayload(status, body));
        case VoiceBodyUnreadable =>
          isLoading := false;
          effect := RequestFailed;
        case VoiceHttpOk(data) =>
          isLoading := false;
          if Complete(data) {
            var user := Append(User, data.transcription.value, userTime);
            var ai := Append(Assistant, data.reply.value, replyTime);
            assert messages == old(messages) + [user, ai];
            effect := Added;
          } else {
            effect := Incomplete;
          }
      }
    }

    /** A new chat: no messages, no input, not loading, no conversation id;
        the stored conversations stay. */
    method HandleNewChat()
      requires Valid()
      modifies this
      ensures Valid()
      ensures messages == [] && inputMessage == [] && !isLoading && currentConversationId == None
      ensures chatHistory == old(chatHistory) && microphoneError == old(microphoneError)
    {
      messages := [];
      inputMessage := [];
      isLoading := false;
      currentConversationId := None;
    }

    /** Switching to a stored conversation, refused while a response is
        pending.  Returns whether the switch happened. */
    method HandleSelectConversation(convo: ChatHistory) returns (switched: bool)
      requires Valid()
      modifies this
      ensures Valid()
      ensures switched == !old(isLoading)
      ensures !switched ==>
                messages == old(messages) && inputMessage == old(inputMessage) &&
                currentConversationId == old(currentConversationId) && isLoading == old(isLoading)
      ensures switched ==>
                currentConversationId == Some(convo.id) && inputMessage == [] && !isLoading &&
                messages == Copies(convo.messages, old(nextId))
      ensures chatHistory == old(chatHistory) && microphoneError == old(microphoneError)
    {
      if isLoading {
        return false;
      }
      currentConversationId := Some(convo.id);
      messages := Copies(convo.messages, nextId);
      nextId := nextId + |convo.messages|;
      inputMessage := [];
      switched := true;
    }

    /** The microphone check run once when the page mounts. */
    method CheckMicrophone(devices: Option<seq<DeviceKind>>)
      requires Valid()
      modifies this`microphoneError
      ensures Valid()
      ensures devices.None? ==> microphoneError == Some("Failed to access microphone devices")
      ensures devices.Some? && AudioInput in devices.value ==> microphoneError == None
      ensures devices.Some? && AudioInput !in devices.value ==> microphoneError == Some("No microphone detected.")
    {
      if devices.None? {
        microphoneError := Some("Failed to access microphone devices");
      } else if AudioInput in devices.value {
        microphoneError := None;
      } else {
        microphoneError := Some("No microphone detected.");
      }
    }
  }

  /** A copied conversation shows the same messages: same roles, contents and
      timestamps, in the same order, as new objects. */
  lemma CopiesShowSameMessages(ms: seq<Message>, base: nat)
    ensures ForApi(Copies(ms, base)) == ForApi(ms)
    ensures DistinctIds(Copies(ms, base)) && IdsBelow(Copies(ms, base), base + |ms|)
  {
  }
}
