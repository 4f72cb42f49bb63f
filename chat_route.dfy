/** The chat endpoint (`POST /api/chat`): it validates the request body against
    a schema, forwards a system prompt followed by the client's messages to the
    completion service, refuses an empty completion, and returns the completion
    with every run of blank lines collapsed and the edges trimmed.  The
    completion service is not modelled: its outcome is an input. */
module ChatRoute {
  import opened Options
  import opened JsText
  import opened Json

  /* ---------------------------------------------------------------------- */
  /* Request validation                                                      */
  /* ---------------------------------------------------------------------- */

  datatype Role = User | Assistant | System

  /** A message as the schema admits it: unknown keys are stripped, so only the
      role and the content survive. */
  datatype ChatMessage = ChatMessage(role: Role, content: string)

  function RoleName(r: Role): string {
    match r
    case User => "user"
    case Assistant => "assistant"
    case System => "system"
  }

  /** The role enumeration: exactly the three role names are accepted. */
  function ParseRole(j: Json): (r: Option<Role>)
    ensures r.Some? ==> j == JStr(RoleName(r.value))
    ensures r.None? ==> forall role: Role :: j != JStr(RoleName(role))
  {
    if j == JStr("user") then Some(User)
    else if j == JStr("assistant") then Some(Assistant)
    else if j == JStr("system") then Some(System)
    else None
  }

  /** One element of `messages`: an object whose `role` is one of the role
      names and whose `content` is a string; any other key is ignored. */
  function ParseMessage(j: Json): (r: Option<ChatMessage>)
    ensures r.Some? ==> (j.JObj? &&
                         Get(j, "role") == Found(JStr(RoleName(r.value.role))) &&
                         Get(j, "content") == Found(JStr(r.value.content)))
    ensures r.None? ==> forall m: ChatMessage ::
                          !(j.JObj? && Get(j, "role") == Found(JStr(RoleName(m.role))) &&
                            Get(j, "content") == Found(JStr(m.content)))
  {
    match j
    case JObj(fields) =>
      if "role" in fields && "content" in fields && fields["content"].JStr? then
        match ParseRole(fields["role"])
        case Some(role) => Some(ChatMessage(role, fields["content"].s))
        case None => None
      else None
    case _ => None
  }

  /** Every element must be a valid message; one bad element fails the array. */
  function ParseMessages(items: seq<Json>): (r: Option<seq<ChatMessage>>)
    ensures r.Some? <==> forall i :: 0 <= i < |items| ==> ParseMessage(items[i]).Some?
    ensures r.Some? ==> (|r.value| == |items| &&
                         forall i :: 0 <= i < |items| ==> ParseMessage(items[i]) == Some(r.value[i]))
  {
    if items == [] then Some([])
    else
      match (ParseMessage(items[0]), ParseMessages(items[1..]))
      case (Some(m), Some(rest)) => Some([m] + rest)
      case _ => None
  }

  /** The request schema: the body is an object whose `messages` is an array
      of valid messages.  `None` is the validation failure. */
  function ValidateRequest(body: Json): (r: Option<seq<ChatMessage>>)
    ensures r.Some? <==> (body.JObj? && "messages" in body.fields && body.fields["messages"].JArr? &&
                          forall i :: 0 <= i < |body.fields["messages"].items| ==>
                                        ParseMessage(body.fields["messages"].items[i]).Some?)
    ensures r.Some? ==> (var items := body.fields["messages"].items;
                         |r.value| == |items| &&
                         forall i :: 0 <= i < |items| ==> ParseMessage(items[i]) == Some(r.value[i]))
  {
    match Get(body, "messages")
    case Found(JArr(items)) => ParseMessages(items)
    case _ => None
  }

  /** `JSON.stringify` of a message reduced to its role and content. */
  function EncodeMessage(m: ChatMessage): Json {
    JObj(map["role" := JStr(RoleName(m.role)), "content" := JStr(m.content)])
  }

  /** The body `{ messages: [...] }` a client sends. */
  function EncodeRequest(ms: seq<ChatMessage>): (j: Json)
    ensures j.JObj? && "messages" in j.fields && j.fields["messages"].JArr?
    ensures |j.fields["messages"].items| == |ms|
    ensures forall i :: 0 <= i < |ms| ==> j.fields["messages"].items[i] == EncodeMessage(ms[i])
  {
    JObj(map["messages" := JArr(seq(|ms|, i requires 0 <= i < |ms| => EncodeMessage(ms[i])))])
  }

  /** Whatever list of messages a client encodes, the schema accepts it and
      gives back the same list. */
  lemma ValidateEncoded(ms: seq<ChatMessage>)
    ensures ValidateRequest(EncodeRequest(ms)) == Some(ms)
  {
    var items := EncodeRequest(ms).fields["messages"].items;
    forall i | 0 <= i < |ms| ensures ParseMessage(items[i]) == Some(ms[i]) {
      assert items[i] == EncodeMessage(ms[i]);
      ParseEncoded(ms[i]);
    }
    var r := ValidateRequest(EncodeRequest(ms));
    assert r.Some?;
    assert |r.value| == |ms|;
    forall i | 0 <= i < |ms| ensures r.value[i] == ms[i] {
      assert ParseMessage(items[i]) == Some(r.value[i]);
    }
    assert r.value == ms;
  }

  lemma ParseEncoded(m: ChatMessage)
    ensures ParseMessage(EncodeMessage(m)) == Some(m)
  {
    var fields := EncodeMessage(m).fields;
    assert "role" != "content";
    assert fields["role"] == JStr(RoleName(m.role)) && fields["content"] == JStr(m.content);
  }

  /** Keys other than `role` and `content` play no part in validation. */
  lemma ExtraKeysIgnored(fields: map<string, Json>, key: string, v: Json)
    requires key != "role" && key != "content"
    ensures ParseMessage(JObj(fields[key := v])) == ParseMessage(JObj(fields))
  {
  }

  /* ---------------------------------------------------------------------- */
  /* The list forwarded to the completion service                            */
  /* ---------------------------------------------------------------------- */

  const SystemPrompt: string :=
    "You are a helpful assistant. Follow these rules:\n" +
    "            1. Respond concisely.\n" +
    "            2. Avoid markdown formatting (like * or #).\n" +
    "            3. If you create a numbered or bulleted list, **start each item on a new line**. For example:\n" +
    "               1. First item.\n" +
    "               2. Second item.\n" +
    "               - Bullet one.\n" +
    "               - Bullet two.\n" +
    "            4. Keep responses under 500 tokens."

  /** The upstream list: one system message carrying the fixed prompt, then
      the validated client messages in their original order. */
  function Forwarded(ms: seq<ChatMessage>): (r: seq<ChatMessage>)
    ensures |r| == |ms| + 1
    ensures r[0] == ChatMessage(System, SystemPrompt)
    ensures forall i :: 0 <= i < |ms| ==> r[i + 1] == ms[i]
  {
    [ChatMessage(System, SystemPrompt)] + ms
  }

  /* ---------------------------------------------------------------------- */
  /* Cleaning the completion                                                 */
  /* ---------------------------------------------------------------------- */

  /** No newline is directly followed by another newline. */
  ghost predicate NoDoubleNewline(s: string) {
    forall i, j :: 0 <= i < j < |s| && j == i + 1 ==> !(s[i] == '\n' && s[j] == '\n')
  }

  /** The number of newlines `s` starts with. */
  function NewlineRun(s: string): (k: nat)
    ensures k <= |s|
    ensures forall i :: 0 <= i < k ==> s[i] == '\n'
    ensures k < |s| ==> s[k] != '\n'
  {
    if s != [] && s[0] == '\n' then 1 + NewlineRun(s[1..]) else 0
  }

  /** `s.replace(/\n{2,}/g, '\n')`: scanning left to right, a place where two
      newlines meet starts a match, the match takes the whole run of newlines,
      and the run is replaced by one newline; every other character is kept. */
  function CollapseNewlines(s: string): (r: string)
    ensures |r| <= |s|
    ensures r == [] <==> s == []
    ensures s != [] ==> r[0] == s[0]
  {
    if |s| >= 2 && s[0] == '\n' && s[1] == '\n' then
      "\n" + CollapseNewlines(s[NewlineRun(s)..])
    else if s == [] then []
    else [s[0]] + CollapseNewlines(s[1..])
  }

  /** The replacement leaves no two newlines side by side. */
  lemma {:induction false} CollapseHasNoDoubleNewline(s: string)
    ensures NoDoubleNewline(CollapseNewlines(s))
    decreases |s|
  {
    var r := CollapseNewlines(s);
    if |s| >= 2 && s[0] == '\n' && s[1] == '\n' {
      var k := NewlineRun(s);
      CollapseHasNoDoubleNewline(s[k..]);
      assert r[1..] == CollapseNewlines(s[k..]);
      assert |r| >= 2 ==> r[1] == s[k] && r[1] != '\n';
    } else if s != [] {
      CollapseHasNoDoubleNewline(s[1..]);
      assert r[1..] == CollapseNewlines(s[1..]);
      assert |r| >= 2 ==> r[1] == s[1];
    }
  }

  /** A character-level reference rule: a newline is dropped exactly when the
      next character is also a newline. */
  function DropRepeatedNewlines(s: string): string {
    if |s| < 2 then s
    else if s[0] == '\n' && s[1] == '\n' then DropRepeatedNewlines(s[1..])
    else [s[0]] + DropRepeatedNewlines(s[1..])
  }

  lemma {:induction false} DropRepeatedSkipsRun(s: string, k: nat)
    requires 1 <= k <= |s|
    requires forall i :: 0 <= i < k ==> s[i] == '\n'
    ensures DropRepeatedNewlines(s) == DropRepeatedNewlines(s[k - 1..])
  {
    if k > 1 {
      assert s[0] == '\n' && s[1] == '\n';
      DropRepeatedSkipsRun(s[1..], k - 1);
      assert s[1..][k - 2..] == s[k - 1..];
    }
  }

  /** The regular-expression replacement agrees with the character-level rule
      on every input. */
  lemma {:induction false} CollapseMatchesReference(s: string)
    ensures CollapseNewlines(s) == DropRepeatedNewlines(s)
    decreases |s|
  {
    if |s| >= 2 && s[0] == '\n' && s[1] == '\n' {
      var k := NewlineRun(s);
      DropRepeatedSkipsRun(s, k);
      var t := s[k - 1..];
      assert t[0] == '\n';
      CollapseMatchesReference(s[k..]);
      assert t[1..] == s[k..];
      if |t| >= 2 {
        assert t[1] != '\n';
      }
    } else if s != [] {
      CollapseMatchesReference(s[1..]);
    }
  }

  /** A string with no repeated newline is left as it is by the replacement. */
  lemma {:induction false} CollapseOfCollapsed(s: string)
    requires NoDoubleNewline(s)
    ensures CollapseNewlines(s) == s
    decreases |s|
  {
    if s != [] {
      if |s| >= 2 {
        assert !(s[0] == '\n' && s[1] == '\n');
      }
      assert NoDoubleNewline(s[1..]) by {
        forall i, j | 0 <= i && j == i + 1 && j < |s[1..]|
          ensures !(s[1..][i] == '\n' && s[1..][j] == '\n')
        {
          assert s[1..][i] == s[i + 1] && s[1..][j] == s[j + 1];
        }
      }
      CollapseOfCollapsed(s[1..]);
    }
  }

  /** The characters of `s` other than newlines, in order. */
  function NonNewlines(s: string): (r: string)
    ensures |r| <= |s|
    ensures forall i :: 0 <= i < |r| ==> r[i] != '\n'
  {
    if s == [] then []
    else (if s[0] == '\n' then [] else [s[0]]) + NonNewlines(s[1..])
  }

  lemma {:induction false} NonNewlinesSkipsRun(s: string, k: nat)
    requires k <= |s|
    requires forall i :: 0 <= i < k ==> s[i] == '\n'
    ensures NonNewlines(s) == NonNewlines(s[k..])
  {
    if k > 0 {
      NonNewlinesSkipsRun(s[1..], k - 1);
      assert s[1..][k - 1..] == s[k..];
    }
  }

  lemma {:induction false} NonNewlinesAppend(a: string, b: string)
    ensures NonNewlines(a + b) == NonNewlines(a) + NonNewlines(b)
  {
    if a != [] {
      assert (a + b)[0] == a[0] && (a + b)[1..] == a[1..] + b;
      NonNewlinesAppend(a[1..], b);
      var h := if a[0] == '\n' then [] else [a[0]];
      calc {
        NonNewlines(a + b);
        h + NonNewlines(a[1..] + b);
        h + (NonNewlines(a[1..]) + NonNewlines(b));
        (h + NonNewlines(a[1..])) + NonNewlines(b);
      }
    } else {
      assert a + b == b;
    }
  }

  /** The replacement deletes newlines only: every other character of the
      input survives, in order. */
  lemma {:induction false} CollapseKeepsText(s: string)
    ensures NonNewlines(CollapseNewlines(s)) == NonNewlines(s)
    decreases |s|
  {
    if |s| >= 2 && s[0] == '\n' && s[1] == '\n' {
      var k := NewlineRun(s);
      CollapseKeepsText(s[k..]);
      NonNewlinesSkipsRun(s, k);
      NonNewlinesAppend("\n", CollapseNewlines(s[k..]));
    } else if s != [] {
      CollapseKeepsText(s[1..]);
      NonNewlinesAppend([s[0]], CollapseNewlines(s[1..]));
    }
  }

  /** `a` can be obtained from `b` by deleting characters. */
  predicate IsSubsequence(a: string, b: string)
    decreases |b|
  {
    if a == [] then true
    else if b == [] then false
    else (a[0] == b[0] && IsSubsequence(a[1..], b[1..])) || IsSubsequence(a, b[1..])
  }

  lemma {:induction false} SubsequenceOfSuffix(a: string, b: string, k: nat)
    requires k <= |b| && IsSubsequence(a, b[k..])
    ensures IsSubsequence(a, b)
  {
    if k > 0 {
      assert b[k - 1..][1..] == b[k..];
      assert IsSubsequence(a, b[k - 1..]);
      SubsequenceOfSuffix(a, b, k - 1);
    }
  }

  lemma {:induction false} SubsequenceDropFront(a: string, b: string, k: nat)
    requires k <= |a| && IsSubsequence(a, b)
    ensures IsSubsequence(a[k..], b)
    decreases |b|, k
  {
    if k > 0 && b != [] {
      if a[0] == b[0] && IsSubsequence(a[1..], b[1..]) {
        SubsequenceDropFront(a[1..], b[1..], k - 1);
        assert a[1..][k - 1..] == a[k..];
        SubsequenceOfSuffix(a[k..], b, 1);
      } else {
        SubsequenceDropFront(a, b[1..], k);
        SubsequenceOfSuffix(a[k..], b, 1);
      }
    }
  }

  lemma {:induction false} SubsequenceTakeFront(a: string, b: string, k: nat)
    requires k <= |a| && IsSubsequence(a, b)
    ensures IsSubsequence(a[..k], b)
    decreases |b|
  {
    if k > 0 && b != [] {
      if a[0] == b[0] && IsSubsequence(a[1..], b[1..]) {
        SubsequenceTakeFront(a[1..], b[1..], k - 1);
        assert a[..k][1..] == a[1..][..k - 1];
      } else {
        SubsequenceTakeFront(a, b[1..], k);
      }
    }
  }

  lemma {:induction false} CollapseIsSubsequence(s: string)
    ensures IsSubsequence(CollapseNewlines(s), s)
    decreases |s|
  {
    if |s| >= 2 && s[0] == '\n' && s[1] == '\n' {
      var k := NewlineRun(s);
      CollapseIsSubsequence(s[k..]);
      assert s[1..][k - 1..] == s[k..];
      SubsequenceOfSuffix(CollapseNewlines(s[k..]), s[1..], k - 1);
      var r := CollapseNewlines(s);
      assert r[1..] == CollapseNewlines(s[k..]);
    } else if s != [] {
      CollapseIsSubsequence(s[1..]);
      var r := CollapseNewlines(s);
      assert r[1..] == CollapseNewlines(s[1..]);
    }
  }

  /** The cleaned completion: runs of blank lines collapsed, then trimmed. */
  function Clean(raw: string): (r: string)
    ensures |r| <= |raw|
  {
    Trim(CollapseNewlines(raw))
  }

  lemma SliceKeepsNoDoubleNewline(s: string, a: nat, b: nat)
    requires a <= b <= |s| && NoDoubleNewline(s)
    ensures NoDoubleNewline(s[a..b])
  {
    forall i, j | 0 <= i && j == i + 1 && j < b - a ensures !(s[a..b][i] == '\n' && s[a..b][j] == '\n') {
      assert s[a..b][i] == s[a + i] && s[a..b][j] == s[a + j];
    }
  }

  /** A cleaned completion has no two newlines in a row and no whitespace at
      either edge. */
  lemma CleanShape(raw: string)
    ensures NoDoubleNewline(Clean(raw))
    ensures NoEdgeWhitespace(Clean(raw))
  {
    var c := CollapseNewlines(raw);
    var a := LeadingWhitespace(c);
    TrimIsSlice(c);
    CollapseHasNoDoubleNewline(raw);
    SliceKeepsNoDoubleNewline(c, a, a + |Trim(c)|);
  }

  /** Cleaning only deletes characters. */
  lemma CleanIsSubsequence(raw: string)
    ensures IsSubsequence(Clean(raw), raw)
  {
    var c := CollapseNewlines(raw);
    var r := Clean(raw);
    var a := LeadingWhitespace(c);
    TrimIsSlice(c);
    CollapseIsSubsequence(raw);
    SubsequenceDropFront(c, raw, a);
    SubsequenceTakeFront(c[a..], raw, |r|);
    assert c[a..][..|r|] == r;
  }

  lemma {:induction false} AllWhitespaceNonNewlines(s: string)
    requires AllWhitespace(s)
    ensures AllWhitespace(NonNewlines(s))
    decreases |s|
  {
    if s != [] {
      AllWhitespaceNonNewlines(s[1..]);
    }
  }

  /** Apart from whitespace cut from the two ends, every character of the
      completion that is not a newline is still there, in order. */
  lemma CleanKeepsInteriorText(raw: string)
    ensures exists a, b :: 0 <= a <= b <= |NonNewlines(raw)| &&
                           NonNewlines(Clean(raw)) == NonNewlines(raw)[a..b] &&
                           AllWhitespace(NonNewlines(raw)[..a]) && AllWhitespace(NonNewlines(raw)[b..])
  {
    var a, b := CleanIsInnerSlice(raw);
    var i, j := NonNewlinesOfInnerSlice(CollapseNewlines(raw), a, b);
    CollapseKeepsText(raw);
    var n := NonNewlines(raw);
    assert i <= j <= |n| && NonNewlines(Clean(raw)) == n[i..j] && AllWhitespace(n[..i]) && AllWhitespace(n[j..]);
  }

  /** The cleaned completion is the replacement's output with whitespace cut
      from both ends. */
  lemma CleanIsInnerSlice(raw: string) returns (a: nat, b: nat)
    ensures a <= b <= |CollapseNewlines(raw)|
    ensures Clean(raw) == CollapseNewlines(raw)[a..b]
    ensures AllWhitespace(CollapseNewlines(raw)[..a]) && AllWhitespace(CollapseNewlines(raw)[b..])
  {
    var c := CollapseNewlines(raw);
    TrimIsSlice(c);
    TrimCutsWhitespace(c);
    a := LeadingWhitespace(c);
    b := a + |Trim(c)|;
  }

  /** Cutting whitespace off both ends of a string cuts only whitespace off
      both ends of its non-newline characters. */
  lemma NonNewlinesOfInnerSlice(c: string, a: nat, b: nat) returns (i: nat, j: nat)
    requires a <= b <= |c| && AllWhitespace(c[..a]) && AllWhitespace(c[b..])
    ensures i <= j <= |NonNewlines(c)|
    ensures NonNewlines(c[a..b]) == NonNewlines(c)[i..j]
    ensures AllWhitespace(NonNewlines(c)[..i]) && AllWhitespace(NonNewlines(c)[j..])
  {
    var front, mid, back := c[..a], c[a..b], c[b..];
    SplitAt(c, a, b);
    var x, y, z := NonNewlines(front), NonNewlines(mid), NonNewlines(back);
    SplitNonNewlines(front, mid, back);
    AllWhitespaceNonNewlines(front);
    AllWhitespaceNonNewlines(back);
    ConcatParts(x, y, z);
    i, j := |x|, |x| + |y|;
  }

  /** The three parts of a concatenation are its slices. */
  lemma ConcatParts(x: string, y: string, z: string)
    ensures (x + y + z)[..|x|] == x && (x + y + z)[|x|..|x| + |y|] == y && (x + y + z)[|x| + |y|..] == z
  {
  }

  lemma SplitAt(s: string, a: nat, b: nat)
    requires a <= b <= |s|
    ensures s == s[..a] + s[a..b] + s[b..]
  {
  }

  lemma SplitNonNewlines(x: string, y: string, z: string)
    ensures NonNewlines(x + y + z) == NonNewlines(x) + NonNewlines(y) + NonNewlines(z)
  {
    NonNewlinesAppend(x, y);
    NonNewlinesAppend(x + y, z);
  }

  /** Cleaning a cleaned completion changes nothing. */
  lemma CleanIdempotent(raw: string)
    ensures Clean(Clean(raw)) == Clean(raw)
  {
    var r := Clean(raw);
    CleanShape(raw);
    CollapseOfCollapsed(r);
    TrimOfTrimmed(r);
  }

  /* ---------------------------------------------------------------------- */
  /* The request handler                                                     */
  /* ---------------------------------------------------------------------- */

  /** An error thrown inside the handler: a schema error, or any other error
      with its message. */
  datatype Thrown = SchemaError | OtherError(message: string)

  /** What `req.json()` produced: a parse failure (with its message) or a value. */
  datatype RequestBody = Unparseable(message: string) | Parsed(json: Json)

  /** What the completion call produced: it threw, or it returned a completion
      whose first choice has this content (`None`: no choice, no message or no
      content). */
  datatype Completion = CompletionThrew(error: Thrown) | Completed(content: Option<string>)

  datatype Payload = ErrorBody(error: string) | ReplyBody(response: string)

  datatype HttpResponse = HttpResponse(status: nat, payload: Payload)

  /** One run of the handler: what it sent upstream, if anything, and what it
      answered. */
  datatype Exchange = Exchange(upstream: Option<seq<ChatMessage>>, response: HttpResponse)

  const InvalidRequest := HttpResponse(400, ErrorBody("Invalid request format"))
  const EmptyCompletion := HttpResponse(500, ErrorBody("Empty response from AI"))

  /** The catch block: a schema error is a 400, anything else a 500 carrying
      the error's message, or a fixed text when the message is empty. */
  function CatchResponse(e: Thrown): (r: HttpResponse)
    ensures e.SchemaError? <==> r.status == 400
    ensures e.SchemaError? ==> r == InvalidRequest
    ensures e.OtherError? ==> r.status == 500 && r.payload.ErrorBody? && r.payload.error != []
    ensures e.OtherError? && e.message != [] ==> r.payload.error == e.message
  {
    match e
    case SchemaError => InvalidRequest
    case OtherError(m) =>
      HttpResponse(500, ErrorBody(if m != [] then m else "Error processing request"))
  }

  function HandlePost(body: RequestBody, completion: Completion): (x: Exchange)
    // The completion service is asked exactly when the body is valid, and it is
    // sent the system prompt followed by the validated messages.
    ensures x.upstream.Some? <==> body.Parsed? && ValidateRequest(body.json).Some?
    ensures x.upstream.Some? ==> x.upstream.value == Forwarded(ValidateRequest(body.json).value)
    // An invalid body is a 400 and nothing is sent.
    ensures body.Parsed? && ValidateRequest(body.json).None? ==> x.response == InvalidRequest
    // A missing or empty completion is a 500.
    ensures (x.upstream.Some? && completion.Completed? &&
             (completion.content.None? || completion.content.value == [])) ==> x.response == EmptyCompletion
    // Success answers with the cleaned completion.
    ensures x.response.status == 200 <==>
      x.upstream.Some? && completion.Completed? && completion.content.Some? && completion.content.value != []
    ensures x.response.status == 200 ==> x.response.payload == ReplyBody(Clean(completion.content.value))
    ensures x.response.status in {200, 400, 500}
    // A body that is not JSON, and a completion call that threw, are answered
    // by the catch block.
    ensures body.Unparseable? ==> x.response == CatchResponse(OtherError(body.message))
    ensures x.upstream.Some? && completion.CompletionThrew? ==> x.response == CatchResponse(completion.error)
  {
    match body
    case Unparseable(m) => Exchange(None, CatchResponse(OtherError(m)))
    case Parsed(j) =>
      match ValidateRequest(j)
      case None => Exchange(None, InvalidRequest)
      case Some(ms) =>
        var up := Forwarded(ms);
        match completion
        case CompletionThrew(e) => Exchange(Some(up), CatchResponse(e))
        case Completed(content) =>
          if content.None? || content.value == [] then Exchange(Some(up), EmptyCompletion)
          else Exchange(Some(up), HttpResponse(200, ReplyBody(Clean(content.value))))
  }

  /** A 400 answer means the body failed the schema (or a schema error was
      thrown); it is never the completion's fault otherwise. */
  lemma BadRequestMeansInvalid(body: RequestBody, completion: Completion)
    ensures HandlePost(body, completion).response.status == 400 <==>
      (body.Parsed? && ValidateRequest(body.json).None?) ||
      (body.Parsed? && ValidateRequest(body.json).Some? && completion == CompletionThrew(SchemaError))
  {
  }

  /** A completion that is still non-empty after cleaning is answered 200
      with its cleaned text. */
  lemma CleanCompletionReplied(body: RequestBody, content: string)
    requires body.Parsed? && ValidateRequest(body.json).Some?
    requires Clean(content) != []
    ensures HandlePost(body, Completed(Some(content))).response == HttpResponse(200, ReplyBody(Clean(content)))
  {
    assert content != [];
    var x := HandlePost(body, Completed(Some(content)));
    assert x.response.status == 200;
  }

  /** A completion that is nothing but whitespace passes the emptiness test,
      which comes before cleaning, and is answered with an empty reply. */
  lemma WhitespaceCompletionGivesEmptyReply(body: RequestBody, ws: string)
    requires body.Parsed? && ValidateRequest(body.json).Some?
    requires ws != [] && AllWhitespace(ws)
    ensures HandlePost(body, Completed(Some(ws))).response == HttpResponse(200, ReplyBody([]))
  {
    var c := CollapseNewlines(ws);
    assert AllWhitespace(c) by {
      CollapseIsSubsequence(ws);
      SubsequenceAllWhitespace(c, ws);
    }
    TrimOfWhitespace(c);
  }

  lemma {:induction false} SubsequenceAllWhitespace(a: string, b: string)
    requires IsSubsequence(a, b) && AllWhitespace(b)
    ensures AllWhitespace(a)
    decreases |b|
  {
    if a != [] && b != [] {
      if a[0] == b[0] && IsSubsequence(a[1..], b[1..]) {
        SubsequenceAllWhitespace(a[1..], b[1..]);
        assert forall i :: 1 <= i < |a| ==> a[i] == a[1..][i - 1];
      } else {
        SubsequenceAllWhitespace(a, b[1..]);
      }
    }
  }
}
