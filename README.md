# Chat starter: conversation state and the chat endpoint, in Dafny

This project models the core of a Next.js chat starter. It has two parts.

- **The chat page** (`app/page.tsx`) keeps the conversation state: the
  messages, the input text, the loading flag, the current conversation id,
  the stored conversations and the microphone error. Its handlers change
  that state:
  - typed submit, with an optimistic append and a rollback when the answer
    fails;
  - the voice round trip, including the error payload built from a failed
    response;
  - starting a new chat;
  - switching to a stored conversation;
  - the microphone check.
  The page also filters the assistant's replies for the side panel and
  groups stored conversations by date.
- **The chat endpoint** (`app/api/chat/route.ts`) validates the request
  body against a schema. It forwards a fixed system prompt followed by the
  client's messages to the completion service and refuses an empty
  completion. It collapses runs of blank lines and trims the edges before
  answering.

Files:

- `options.dfy`: the `Option` type.
- `js_text.dfy`: the JavaScript string built-ins used by the page and the
  endpoint.
  - `String.prototype.trim`, over the ECMAScript whitespace and
    line-terminator set;
  - `substring(0, n)`;
  - the decimal rendering of a status code.
- `json.dfy`: parsed JSON values, property reads that may be `undefined`,
  JavaScript truthiness and `x || fallback`.
- `chat_route.dfy`: the endpoint.
  - the schema and an encoder with its round trip;
  - the forwarded list;
  - the regular-expression replacement, with a character-level reference
    rule it is proved equal to;
  - the cleaning;
  - the whole handler as a function of the parsed body and the completion
    outcome.
- `chat_page.dfy`: the page.
  - the state is a class whose handlers are methods;
  - the list updates are functions;
  - every network result, every result of the recording hook and every
    `new Date().toISOString()` value is a method parameter.
- `chat_grouping.dfy`: `groupChatsByDate`.
  - The method has the source's loops: one pushes onto a map from keys to
    lists, one copies the keys in display order.
  - Its result is proved equal to a specification built from a stable
    newest-first sort and per-bucket filters.
- `chat_flow.dfy`: the page and the endpoint together.
  - The page's request always passes the schema.
  - A completion that survives cleaning is shown as the answer.
  - A whitespace-only completion becomes an empty reply, which the page
    rolls back.

Message identity matters on the page, because the rollback removes the
optimistic message with `!==`. Each message therefore carries an `id`
standing for its object identity. The class invariant `Valid()` says that
the live messages have distinct identities, all below the next one to be
handed out.

## Model

| member | source | states |
|---|---|---|
| JsText.Trim | app/api/chat/route.ts:64 | `trim()` leaves no whitespace on either edge and never lengthens the string |
| JsText.TrimIsSlice | app/api/chat/route.ts:64 | the trimmed string is the contiguous slice of the input that starts after the leading whitespace |
| JsText.TrimCutsWhitespace | app/api/chat/route.ts:64 | everything trimming cuts away, before and after the kept slice, is whitespace |
| JsText.TrimOfWhitespace | app/api/chat/route.ts:64 | a string made only of whitespace trims to the empty string |
| JsText.TrimOfTrimmed | app/api/chat/route.ts:64 | trimming a string with no edge whitespace returns it unchanged |
| JsText.TrimStartDropsWhitespace | app/api/chat/route.ts:64 | everything the leading trim drops is whitespace |
| JsText.TrimEndDropsWhitespace | app/api/chat/route.ts:64 | everything the trailing trim drops is whitespace |
| JsText.Prefix | app/page.tsx:208-220 | `substring(0, 150)` is a prefix of at most 150 characters, and the whole string when it is shorter |
| JsText.Decimal | app/page.tsx:193 | the status rendered in the error text is a non-empty string of decimal digits without leading zero that denotes the status number |
| Json.OrElse | app/page.tsx:207-208 | `x \|\| fallback` is either the fallback or the value read, the value read whenever it is truthy, and the result is truthy exactly when one of the two is |
| ChatRoute.ParseRole | app/api/chat/route.ts:14 | exactly the three role names are accepted |
| ChatRoute.ParseMessage | app/api/chat/route.ts:13-16 | a message is accepted exactly when it is an object with a valid role name and a string content; those two fields are what is kept |
| ChatRoute.ParseMessages | app/api/chat/route.ts:13 | the array is accepted exactly when every element is, and the result holds the elements in order |
| ChatRoute.ValidateRequest | app/api/chat/route.ts:12-27 | a body is accepted exactly when it is an object whose `messages` is an array of valid messages; the result is those messages, in order |
| ChatRoute.EncodeRequest | app/page.tsx:119 | the body `JSON.stringify({ messages })` is an object whose `messages` is an array holding every message, in order, encoded as an object of its role name and content |
| ChatRoute.ValidateEncoded | app/api/chat/route.ts:12-17 | any list of messages, encoded as a request body, is accepted and decoded back to the same list |
| ChatRoute.Forwarded | app/api/chat/route.ts:30-46 | the upstream list is the system prompt message followed by the validated messages, in order |
| ChatRoute.CollapseNewlines | app/api/chat/route.ts:63 | the replacement output keeps the first character, is never longer and is empty only for an empty input |
| ChatRoute.CollapseHasNoDoubleNewline | app/api/chat/route.ts:63 | the replacement output has no two adjacent newlines |
| ChatRoute.CollapseMatchesReference | app/api/chat/route.ts:63 | the regular-expression replacement equals the rule "drop a newline exactly when the next character is a newline" |
| ChatRoute.CollapseOfCollapsed | app/api/chat/route.ts:63 | a string with no repeated newline is left unchanged by the replacement |
| ChatRoute.CollapseKeepsText | app/api/chat/route.ts:63 | the replacement deletes newlines only: the other characters survive in order |
| ChatRoute.CollapseIsSubsequence | app/api/chat/route.ts:63 | the replacement output is a subsequence of its input |
| ChatRoute.Clean | app/api/chat/route.ts:61-64 | cleaning (newline runs collapsed, then trimmed) never lengthens the completion; the lemmas below state its shape and content |
| ChatRoute.CleanShape | app/api/chat/route.ts:61-64 | the cleaned response has no two adjacent newlines and no whitespace on its edges |
| ChatRoute.CleanIsSubsequence | app/api/chat/route.ts:61-64 | cleaning only deletes characters: the output is a subsequence of the input |
| ChatRoute.CleanKeepsInteriorText | app/api/chat/route.ts:61-64 | the non-newline characters of the output are a contiguous run of the input's, and only whitespace is cut on either side |
| ChatRoute.CleanIsInnerSlice | app/api/chat/route.ts:61-64 | the cleaned response is a contiguous slice of the replacement's output with only whitespace cut from either side |
| ChatRoute.CleanIdempotent | app/api/chat/route.ts:61-64 | cleaning a cleaned response returns it unchanged |
| ChatRoute.CatchResponse | app/api/chat/route.ts:71-83 | a schema error gives 400 "Invalid request format"; any other error gives 500 with its message, or a fixed text when the message is empty |
| ChatRoute.HandlePost | app/api/chat/route.ts:19-84 | upstream is called exactly when the body is valid, and with the forwarded list; an invalid body gives 400; a missing or empty completion gives 500; 200 happens exactly for a non-empty completion and carries its cleaned text; a body that is not JSON, and a completion call that threw, are answered by the catch block with that error |
| ChatRoute.CleanCompletionReplied | app/api/chat/route.ts:52-69 | for a valid body, a completion whose cleaned text is non-empty is answered 200 with exactly that cleaned text |
| ChatRoute.BadRequestMeansInvalid | app/api/chat/route.ts:22-26 | a 400 means the body failed the schema or a schema error was thrown |
| ChatRoute.WhitespaceCompletionGivesEmptyReply | app/api/chat/route.ts:52-69 | a whitespace-only completion passes the emptiness test and is answered 200 with an empty response |
| ChatPage.ForApi | app/page.tsx:113 | each message is reduced to its role and content, in order |
| ChatPage.AppendFresh | app/page.tsx:105 | appending a new message object keeps identities distinct and below the next one |
| ChatPage.Without | app/page.tsx:148 | the rollback filter keeps exactly the messages that are not the removed object |
| ChatPage.WithoutAppended | app/page.tsx:105-148 | removing the optimistically appended message restores the list as it was |
| ChatPage.AssistantMessages | app/page.tsx:379 | the side panel shows exactly the assistant messages |
| ChatPage.AssistantMessagesAppend | app/page.tsx:379 | the filter distributes over appending: a user message plus a reply adds exactly the reply |
| ChatPage.Copies | app/page.tsx:315 | switching conversations creates new message objects with the same fields |
| ChatPage.CopiesShowSameMessages | app/page.tsx:315 | the copies show the same roles and contents, in order, and have fresh distinct identities |
| ChatPage.SubmitOutcome | app/page.tsx:123-133 | only an ok response with a non-empty `response` is an answer; a failed status reports the body's `error` or "AI request failed: " plus the status text; an empty answer is "Empty response content from AI."; a thrown error keeps its message |
| ChatPage.VoiceErrorPayload | app/page.tsx:192-221 | the error text is always truthy and falls back to the status default when the parsed object has none; a body that parsed to a non-object gives "Invalid JSON structure received (status)" and an unreadable or unparseable body gives "Non-JSON or unreadable response from backend (status)"; the backend's detail is passed on; any other detail is a string of at most 150 characters, taken from the raw body when there is one |
| ChatPage.ChatPage.constructor | app/page.tsx:47-56 | the page starts with no messages, no input, no loading, no conversation, no history and no microphone error |
| ChatPage.ChatPage.HandleSubmit | app/page.tsx:95-153 | blank input changes nothing; otherwise the request carries the earlier messages plus the trimmed text; an answer appends the user message and then the reply and clears the input; a failure removes the user message and restores the input; loading ends false |
| ChatPage.ChatPage.Send | app/page.tsx:98-152 | the non-blank part of submit: optimistic append, request, then answer or rollback |
| ChatPage.ChatPage.HandleVoiceRecording | app/page.tsx:156-282 | not recording: only refuse or start. Recording: a failed stop, or a missing blob or one under 1000 bytes, adds nothing. The conversation so far is sent as context. Once the recording is sent, an error status yields exactly `BackendError` with the error payload, and only an error status does. A thrown request or an unreadable body yields `RequestFailed`, and an answer missing either text yields `Incomplete`. The transcription and then the reply are appended exactly when both came back non-empty. Loading ends false. |
| ChatPage.ChatPage.HandleNewChat | app/page.tsx:285-304 | no messages, no input, not loading, no conversation id; the stored conversations stay |
| ChatPage.ChatPage.HandleSelectConversation | app/page.tsx:306-318 | refused with no change while loading; otherwise the conversation's messages are shown as new objects, its id becomes current and the input is cleared |
| ChatPage.ChatPage.CheckMicrophone | app/page.tsx:75-86 | no audio input gives "No microphone detected.", a failed enumeration "Failed to access microphone devices", otherwise no error |
| ChatGrouping.ChatTime | app/page.tsx:330-333 | `lastUpdated` is used whenever present, otherwise `timestamp` |
| ChatGrouping.Classify | app/page.tsx:334-346 | the bucket is the first whose start the time has reached, in the order Today, Yesterday, Previous 7 Days, This Month, else Older |
| ChatGrouping.ClassifyMonotone | app/page.tsx:336-346 | a later time never falls into a later bucket, whatever the bucket starts are |
| ChatGrouping.BucketNamesDistinct | app/page.tsx:337-345 | different buckets use different keys |
| ChatGrouping.SortNewestFirst | app/page.tsx:330 | the sorted list is newest first and a permutation of the input |
| ChatGrouping.InsertNewestFirst | app/page.tsx:330 | inserting into a newest-first list keeps it newest first |
| ChatGrouping.ChatsInMembers | app/page.tsx:348-351 | a bucket holds exactly the conversations that classify into it, with their multiplicities |
| ChatGrouping.ChatsInNewestFirst | app/page.tsx:330-351 | a bucket filled from the sorted list is newest first |
| ChatGrouping.GroupChatsByDate | app/page.tsx:321-363 | the two loops compute the specified grouping: the non-empty buckets of the sorted list, in display order |
| ChatGrouping.PushAll | app/page.tsx:332-352 | after the first loop, a key is present exactly when its bucket is non-empty, and it holds that bucket's conversations in sorted order |
| ChatGrouping.InDisplayOrder | app/page.tsx:355-360 | the second loop copies the present keys in display order |
| ChatGrouping.GroupsFlattenToSorted | app/page.tsx:330-360 | reading the groups one after another gives exactly the sorted list, so the groups hold a permutation of the input |
| ChatGrouping.GroupsInDisplayOrder | app/page.tsx:355-360 | the keys follow the display order, each at most once |
| ChatGrouping.PresentIffSomeChat | app/page.tsx:348-360 | a bucket has a group exactly when some conversation falls into it |
| ChatGrouping.GroupsNewestFirst | app/page.tsx:330-352 | every group is non-empty and newest first, and holds only conversations of the bucket its key names |
| ChatGrouping.EveryChatInAGroup | app/page.tsx:332-352 | every conversation appears in some group |
| ChatGrouping.NoChatInTwoGroups | app/page.tsx:332-352 | no conversation appears in two groups |
| ChatFlow.Received | app/page.tsx:123-129 | a 2xx answer is read as a success and any other status as an error carrying the response's status text |
| ChatFlow.PageRequestAccepted | app/page.tsx:113-120 | the page's request always passes the endpoint's schema, so the conversation is forwarded behind the system prompt |
| ChatFlow.CleanedCompletionAnswers | app/page.tsx:123-133 | a completion that survives cleaning is shown as the answer, cleaned |
| ChatFlow.WhitespaceCompletionFails | app/page.tsx:129-131 | a whitespace-only completion reaches the page as an empty reply, which fails with "Empty response content from AI." and is rolled back |
| ChatFlow.MissingCompletionFails | app/page.tsx:123-125 | a missing completion reaches the page as a 500 whose error text is shown |

## Left out

- The completion service, the transcription service and every `fetch` are not modelled. Their outcomes are datatype parameters: success with content, an error status with its body, or a throw.
- `isRecording`, `startRecording` and `stopRecording` belong to the recording hook (`hooks/useVoiceRecording.ts`), which is not part of this model. `isRecording` and the stop result are parameters. `startRecording` catches its own errors, so starting is only recorded as an outcome.
- ChatPage.ChatPage.HandleVoiceRecording: the second `stopRecording()` call in the catch block is cleanup inside the hook and is not modelled.
- Rendering, toasts, console logging, scrolling, animation, theme, clipboard and the sidebars are UI only. A toast text is returned only where it carries state (the submit's error).
- AbortController cancellation and React's batched, asynchronous state updates are not modelled. Each handler is one atomic step, and the submit's request uses the messages as they were when it started.
- `app/api/voice-chat/route.ts`, the hooks and the components are not part of this model.
- The date arithmetic for the bucket starts (`setHours`, `setDate`, local time zone) is not modelled. The four starts are integer parameters, and no order between them is assumed.
- Timestamps from `new Date().toISOString()` are opaque string parameters.
- JSON numbers are integers. String lengths count Unicode scalar values, not UTF-16 code units, so `substring(0, 150)` is modelled on scalars.
- Non-string `transcription`, `reply`, `response` or `error` fields are not modelled. They are taken as strings or absent.
- The `details` field of the 400 answer for a thrown schema error is omitted (app/api/chat/route.ts:75).
- ChatGrouping.SortNewestFirst: a stable insertion sort. The ensures state order and permutation, but not stability.
- The `{...m, timestamp: m.timestamp}` copy on switching makes new objects with the same fields. The model gives them fresh identities.
