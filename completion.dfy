/**
 * The completion client: the keyword gate, the request it builds, and the
 * choice of reply from what the relay sent back.
 */
module Completion {
  import opened Optional
  import opened Messages
  import opened TopicGate

  /** A value `response.json()` can produce. */
  datatype Json =
    | JNull
    | JBool(b: bool)
    | JNum(n: real)
    | JStr(s: string)
    | JArr(items: seq<Json>)
    | JObj(fields: map<string, Json>)

  /** What the network step yields: the parsed body, or a thrown error
      (unreachable host, refused connection, a body that is not JSON). */
  datatype FetchResult = Received(data: Json) | Failed(error: string)

  /** The request the widget would send: its HTTP method, its
      `Content-Type` header, and the body's model and messages. */
  datatype Request = Request(url: string, httpMethod: string, contentType: string, model: string, messages: seq<Message>)

  /** One call of the client: the request it issued, if any, and the text
      it returns. */
  datatype Exchange = Exchange(request: Option<Request>, reply: string)

  const WorkerUrl: string := "https://timetraveler.jstroud6.workers.dev/"
  const ModelId: string := "gpt-4o"
  const Post: string := "POST"
  const JsonType: string := "application/json"

  const Refusal: string :=
    "Sorry, I can only help with L\U{2019}Or\U{00E9}al Paris products and routines! \U{1F60A}"
  const NoResponse: string := "Sorry, I couldn't get a response from Jay. Please try again!"
  const ConnectionProblem: string := "Sorry, there was a problem connecting to OpenAI."

  /** JavaScript truthiness; `None` is `undefined`. */
  function Truthy(v: Option<Json>): (r: bool)
    ensures r ==> v.Some? && v.value != JNull
    ensures v.Some? && (v.value.JArr? || v.value.JObj?) ==> r
    ensures v == Some(JStr("")) || v == Some(JNum(0.0)) || v == Some(JBool(false)) ==> !r
  {
    match v
    case None => false
    case Some(JNull) => false
    case Some(JBool(b)) => b
    case Some(JNum(n)) => n != 0.0
    case Some(JStr(s)) => s != ""
    case Some(JArr(_)) => true
    case Some(JObj(_)) => true
  }

  /** Reading `v.key` from a value already known to be truthy: only an
      object can have the property; on any other value it is `undefined`. */
  function Get(v: Option<Json>, key: string): (r: Option<Json>)
    ensures r.Some? ==> v.Some? && v.value.JObj? && key in v.value.fields && r.value == v.value.fields[key]
    ensures v.Some? && !v.value.JObj? ==> r.None?
    ensures v.Some? && v.value.JObj? && key in v.value.fields ==> r == Some(v.value.fields[key])
  {
    if v.Some? && v.value.JObj? && key in v.value.fields then Some(v.value.fields[key]) else None
  }

  /** `Array.isArray(v)`. */
  function IsArray(v: Option<Json>): (r: bool)
    ensures r ==> Truthy(v)
    ensures v.Some? && v.value.JArr? ==> r
    ensures v.Some? && v.value.JObj? ==> !r
  {
    v.Some? && v.value.JArr?
  }

  /** `v[0]` of an array; `undefined` when the array is empty. */
  function First(v: Option<Json>): (r: Option<Json>)
    requires IsArray(v)
    ensures r.None? <==> v.value.items == []
    ensures r.Some? ==> r.value == v.value.items[0] && r.value in v.value.items
  {
    if |v.value.items| > 0 then Some(v.value.items[0]) else None
  }

  /** The plain shape the reply must have: an object whose `choices` is a
      non-empty array whose first element is an object whose `message` is
      an object whose `content` is the string `content`. */
  ghost predicate HasReply(data: Json, content: string)
  {
    data.JObj? && "choices" in data.fields &&
    var choices := data.fields["choices"];
    choices.JArr? && |choices.items| > 0 &&
    var first := choices.items[0];
    first.JObj? && "message" in first.fields &&
    var message := first.fields["message"];
    message.JObj? && "content" in message.fields &&
    message.fields["content"] == JStr(content)
  }

  /** The chain of checks on the parsed body, in the order the widget makes
      them, each guarding the property read after it. */
  function ReplyContent(data: Json): (r: Option<string>)
    ensures r.Some? ==> HasReply(data, r.value)
    ensures r.None? ==> forall c :: !HasReply(data, c)
  {
    var d := Some(data);
    if Truthy(d) && IsArray(Get(d, "choices")) && Truthy(First(Get(d, "choices"))) then
      var message := Get(First(Get(d, "choices")), "message");
      if Truthy(message) then
        var content := Get(message, "content");
        if content.Some? && content.value.JStr? then Some(content.value.s) else None
      else None
    else None
  }

  /** The text returned for a body that was received and parsed. */
  function ExtractReply(data: Json): (r: string)
    ensures forall c :: HasReply(data, c) ==> r == c
    ensures (forall c :: !HasReply(data, c)) ==> r == NoResponse
  {
    match ReplyContent(data)
    case Some(c) => c
    case None => NoResponse
  }

  /** `getOpenAIResponse(history, userMessage)` with the network's answer
      given as `net`: the gate first, then one request, then the reply. */
  function GetReply(history: seq<Message>, userMessage: string, net: FetchResult): (r: Exchange)
    ensures r.request.None? <==> !IsInDomain(userMessage)
    ensures r.request.None? ==> r.reply == Refusal
    ensures r.request.Some? ==> r.request.value == Request(WorkerUrl, Post, JsonType, ModelId, history)
    ensures r.request.Some? && net.Failed? ==> r.reply == ConnectionProblem
    ensures r.request.Some? && net.Received? ==>
      forall c :: HasReply(net.data, c) ==> r.reply == c
    ensures r.request.Some? && net.Received? && (forall c :: !HasReply(net.data, c)) ==>
      r.reply == NoResponse
  {
    if !IsInDomain(userMessage) then
      Exchange(None, Refusal)
    else
      var request := Request(WorkerUrl, Post, JsonType, ModelId, history);
      match net
      case Failed(_) => Exchange(Some(request), ConnectionProblem)
      case Received(data) => Exchange(Some(request), ExtractReply(data))
  }

  /** The three fixed answers are pairwise different. */
  lemma FixedRepliesDistinct()
    ensures Refusal != NoResponse && NoResponse != ConnectionProblem && Refusal != ConnectionProblem
  {
    assert |Refusal| == 66 && |NoResponse| == 60 && |ConnectionProblem| == 48;
  }

  /** A failed connection yields the same text whatever went wrong: the
      error is never shown to the user. */
  lemma FailureHidesError(history: seq<Message>, userMessage: string, e1: string, e2: string)
    ensures GetReply(history, userMessage, Failed(e1)) == GetReply(history, userMessage, Failed(e2))
  {
  }

  /** A refused message never reaches the network: the outcome does not
      depend on what the network would have said. */
  lemma RefusalIgnoresNetwork(history: seq<Message>, userMessage: string, n1: FetchResult, n2: FetchResult)
    requires !IsInDomain(userMessage)
    ensures GetReply(history, userMessage, n1) == GetReply(history, userMessage, n2) == Exchange(None, Refusal)
  {
  }

  /** A well-formed body gives back its content, whatever the other fields. */
  lemma RougeReply(extra: map<string, Json>)
    ensures
      var body := JObj(extra["choices" := JArr([JObj(map["message" := JObj(map["content" := JStr("**Rouge**...")])])])]);
      ExtractReply(body) == "**Rouge**..."
  {
  }

  /** An empty object has no `choices`. */
  lemma EmptyBodyNoResponse()
    ensures ExtractReply(JObj(map[])) == NoResponse
  {
  }

  /** An empty string is still a string, and is returned as it is. */
  lemma EmptyContentReturned()
    ensures ExtractReply(JObj(map["choices" := JArr([JObj(map["message" := JObj(map["content" := JStr("")])])])])) == ""
  {
  }

  /** The relay may itself answer with the refusal sentence, so a reply
      equal to `Refusal` does not show that the gate refused. */
  lemma RefusalTextCanComeFromServer(history: seq<Message>, userMessage: string)
    requires IsInDomain(userMessage)
    ensures
      var body := JObj(map["choices" := JArr([JObj(map["message" := JObj(map["content" := JStr(Refusal)])])])]);
      var r := GetReply(history, userMessage, Received(body));
      r.request.Some? && r.reply == Refusal
  {
  }
}
