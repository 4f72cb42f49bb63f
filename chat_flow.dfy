/** The page and the chat route together: what the page sends always passes
    the route's schema, and what the route answers is what the page shows. */
module ChatFlow {
  import opened Options
  import opened JsText
  import ChatPage
  import ChatRoute

  /** The route's name for a page role. */
  function RouteRole(r: ChatPage.Role): ChatRoute.Role {
    match r
    case User => ChatRoute.User
    case Assistant => ChatRoute.Assistant
  }

  /** The page's request messages, as the route reads them. */
  function ToRoute(ms: seq<ChatPage.ApiMessage>): (r: seq<ChatRoute.ChatMessage>)
    ensures |r| == |ms|
    ensures forall i :: 0 <= i < |ms| ==> r[i] == ChatRoute.ChatMessage(RouteRole(ms[i].role), ms[i].content)
  {
    seq(|ms|, i requires 0 <= i < |ms| => ChatRoute.ChatMessage(RouteRole(ms[i].role), ms[i].content))
  }

  /** The body of the page's `fetch('/api/chat', ...)`: `{ messages }`. */
  function RequestBody(ms: seq<ChatPage.ApiMessage>): ChatRoute.RequestBody {
    ChatRoute.Parsed(ChatRoute.EncodeRequest(ToRoute(ms)))
  }

  /** How the page's submit handler reads the route's answer: a status outside
      200-299 is an error carrying the body's `error`, any other status is a
      success carrying the body's `response`. */
  function Received(r: ChatRoute.HttpResponse, statusText: string): (reply: ChatPage.ChatReply)
    ensures 200 <= r.status < 300 ==> reply.ChatHttpOk?
    ensures !(200 <= r.status < 300) ==> reply.ChatHttpError? && reply.statusText == statusText
  {
    if 200 <= r.status < 300 then
      ChatPage.ChatHttpOk(if r.payload.ReplyBody? then Some(r.payload.response) else None)
    else
      ChatPage.ChatHttpError(statusText, if r.payload.ErrorBody? then Some(r.payload.error) else None)
  }

  /** Whatever conversation the page sends, the route accepts it and forwards
      it behind its system prompt, roles and contents unchanged. */
  lemma PageRequestAccepted(ms: seq<ChatPage.ApiMessage>, completion: ChatRoute.Completion)
    ensures ChatRoute.HandlePost(RequestBody(ms), completion).upstream ==
            Some(ChatRoute.Forwarded(ToRoute(ms)))
    ensures ChatRoute.HandlePost(RequestBody(ms), completion).response.status != 400 ||
            completion == ChatRoute.CompletionThrew(ChatRoute.SchemaError)
  {
    ChatRoute.ValidateEncoded(ToRoute(ms));
  }

  /** A completion that survives cleaning is shown as the answer, cleaned. */
  lemma CleanedCompletionAnswers(ms: seq<ChatPage.ApiMessage>, content: string, statusText: string)
    requires ChatRoute.Clean(content) != []
    ensures ChatPage.SubmitOutcome(Received(ChatRoute.HandlePost(RequestBody(ms), ChatRoute.Completed(Some(content))).response, statusText))
            == ChatPage.Answered(ChatRoute.Clean(content))
  {
    ChatRoute.ValidateEncoded(ToRoute(ms));
    ChatRoute.CleanCompletionReplied(RequestBody(ms), content);
  }

  /** A completion made only of whitespace is answered with an empty reply,
      which the page treats as a failure: the user's message is taken back. */
  lemma WhitespaceCompletionFails(ms: seq<ChatPage.ApiMessage>, ws: string, statusText: string)
    requires ws != [] && AllWhitespace(ws)
    ensures ChatPage.SubmitOutcome(Received(ChatRoute.HandlePost(RequestBody(ms), ChatRoute.Completed(Some(ws))).response, statusText))
            == ChatPage.Failed(ChatPage.EmptyAnswerReason)
  {
    ChatRoute.ValidateEncoded(ToRoute(ms));
    ChatRoute.WhitespaceCompletionGivesEmptyReply(RequestBody(ms), ws);
  }

  /** A missing completion is a 500 whose error text the page shows. */
  lemma MissingCompletionFails(ms: seq<ChatPage.ApiMessage>, statusText: string)
    ensures ChatPage.SubmitOutcome(Received(ChatRoute.HandlePost(RequestBody(ms), ChatRoute.Completed(None)).response, statusText))
            == ChatPage.Failed(ChatRoute.EmptyCompletion.payload.error)
  {
    ChatRoute.ValidateEncoded(ToRoute(ms));
  }
}
