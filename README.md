# L'Oréal Paris chat widget — session core in Dafny

The widget is a browser form. The user types a message. The page keeps an
ordered conversation history of role-tagged messages, which opens with a
fixed persona instruction. It remembers the user's name the first time a
message says `my name is <word>`. A keyword gate decides whether the
message is about L'Oréal Paris. Only then does the page POST the whole
history to a relay. It picks the reply out of the JSON the relay returns,
and it draws both turns as bubbles in the chat window.

This project models that core and proves its properties:

- `text.dfy` — `Optional` (the Option datatype) and `Text`: a char-wise
  `toLowerCase`, `includes` (`Contains`) proved equal to "occurs at some
  position", and the `\w` character class.
- `messages.dfy` — `Messages`: roles, messages, the persona message and the
  name announcement `The user's name is <name>.`.
- `topic_gate.dfy` — `TopicGate`: the sixteen keywords and the classifier
  `IsInDomain`, proved to hold exactly when some keyword occurs in the
  lower-cased message.
- `name_capture.dfy` — `NameCapture`: `/my name is (\w+)/i` as a
  leftmost-start scan with a greedy capture. It is proved against a
  reference definition: the leftmost match, then the maximal run of word
  characters.
- `completion.dfy` — `Completion`: the parsed response as a JSON datatype,
  JavaScript truthiness, the chain of shape checks (`ReplyContent`), and
  `getOpenAIResponse` as `GetReply`. The network's answer is a parameter
  (`FetchResult`): a parsed body, or a thrown error.
- `session.dfy` — `ChatSession`: the submit handler as a pure `Step` on a
  `State`, and the invariant it keeps. Lemmas over runs of many
  submissions cover append-only history and first-match-wins naming. The
  class `Session` holds the history, the name and the transcript as fields.
  Its `Submit` method updates them in place and is proved equal to `Step`.

Modelling decisions:

- Lower-casing maps ASCII `A`-`Z` and the Latin-1 capitals U+00C0..U+00DE
  (except U+00D7) down by 32, as `toLowerCase` does. Every other character
  maps to itself. So `L'ORÉAL` lowers to the keyword `l'oréal`.
- The regular expression has the `i` flag but not the `u` flag. Its case
  folding never maps a non-ASCII character onto an ASCII one, and its `\w`
  is `[A-Za-z0-9_]`. The model therefore folds only ASCII letters when it
  looks for the literal `my name is `. The captured name keeps its original
  case. A name with an accent is cut before the accent (`AccentCutsName`).
- The guard `!userName` is modelled as "no name held". A captured name is
  never empty (`\w+`), so a held name is always truthy.
- One submission is one atomic step. The reply is requested with the
  history as it stands after the user's message has been pushed.
- The code puts no check on empty input. An empty message goes through the
  handler like any other and the gate refuses it (`ShortMessageRefused`).
  Any `required` attribute on the input field belongs to the page markup,
  which is not part of this model.
- A reply equal to the refusal text does not prove the gate refused it. The
  persona tells the model to answer off-topic questions with the same
  sentence (`RefusalTextCanComeFromServer`). So "no request is made" is
  stated on `Exchange.request`, not on the reply text.

## Model

| member | source | states |
|---|---|---|
| Text.Contains | script.js:143 | `text.includes(k)` holds exactly when `k` occurs in `text` at some position |
| Text.Lower | script.js:143 | an ASCII capital or a Latin-1 capital (U+00C0..U+00DE, not U+00D7) moves down 32 code points to its small letter; every other character is left as it is; no result is a capital |
| Text.ToLower | script.js:143 | the lower case has the input's length; it is defined character by character as `Lower`, which the row above specifies |
| Text.WordCharIsAscii | script.js:47 | `\w` without the `u` flag accepts only ASCII characters: é, the dotless ı and the long ſ are not word characters |
| Text.SameUpToCaseLower | script.js:143 | two strings that differ only in letter case have the same lower case |
| TopicGate.AnyKeyword | script.js:142-144 | `some` over the keyword list holds exactly when some listed keyword occurs in the text |
| TopicGate.IsInDomain | script.js:124-144 | a message is in domain exactly when one of the sixteen keywords occurs in its lower case |
| TopicGate.KeywordsAtLeastFourLong | script.js:124-141 | every keyword in the list has at least four characters |
| TopicGate.KeywordsAreLowerCase | script.js:124-141 | every keyword in the list is its own lower case, so a keyword written with capitals in the message still matches |
| TopicGate.ShortMessageRefused | script.js:124-149 | the empty message, and any message shorter than four characters, is not in domain |
| TopicGate.CaseInsensitive | script.js:142-144 | messages that differ only in letter case, in the model's case mapping (ASCII and Latin-1), get the same verdict |
| TopicGate.UpperCaseClassifiedAlike | script.js:142-144 | upper-casing a message with the model's case mapping (ASCII and Latin-1) does not change its verdict |
| TopicGate.InDomainExtends | script.js:142-144 | text added before or after an in-domain message keeps it in domain |
| TopicGate.LipstickQuestionInDomain | script.js:124-144 | "What lipstick do you recommend?" passes the gate |
| TopicGate.ShoutedBrandInDomain | script.js:124-144 | the brand name written in capitals, with É, passes the gate |
| Messages.NameMessage | script.js:51-54 | the announcement is a system message made of the fixed prefix, the name and a full stop |
| Messages.NameMessageInjective | script.js:51-54 | different names give different announcements |
| NameCapture.MatchAt | script.js:47 | the expression matches at `i` exactly when the literal stands there in any ASCII case and the greedy word run after it is non-empty |
| NameCapture.WordRun | script.js:47 | the greedy `\w+`: a prefix of the input, all word characters, stopped only by a non-word character or the end |
| NameCapture.FindNameFrom | script.js:47 | scanning from `i` finds nothing exactly when no match starts at or after `i`; otherwise it returns the capture at the leftmost such match |
| NameCapture.FindName | script.js:47-48 | no name exactly when the pattern matches nowhere; otherwise a non-empty word that is the maximal word run after the leftmost match, in its original case |
| NameCapture.CapturedAtUnique | script.js:47-49 | at a given match position the captured name is unique |
| NameCapture.CapitalisedIntroduction | script.js:47-49 | "My name is Alice" captures "Alice" |
| NameCapture.AccentCutsName | script.js:47-49 | "my name is José" captures "Jos" |
| NameCapture.NoWordNoName | script.js:47-48 | the literal alone, with no word character after it, captures nothing |
| Completion.Truthy | script.js:174-178 | only a present, non-null value can be truthy; every array and object is truthy, even an empty one; `""`, `0` and `false` are falsy |
| Completion.Get | script.js:175-178 | a property read yields a value only from an object that has that key, and then the key's value; on any other value it is `undefined` |
| Completion.IsArray | script.js:175 | every array passes `Array.isArray`, whatever passes is truthy, and an object never passes |
| Completion.First | script.js:176 | `[0]` is `undefined` exactly for the empty array, and otherwise is its first element |
| Completion.ReplyContent | script.js:173-181 | the truthiness checks succeed exactly when the body is an object whose `choices` is a non-empty array whose first element's `message` is an object whose `content` is a string, and they yield that string |
| Completion.ExtractReply | script.js:173-185 | a body of that shape gives its content; any other body gives the fixed "couldn't get a response" text |
| Completion.GetReply | script.js:119-190 | no request exactly when the message fails the gate, and then the reply is the refusal; otherwise one POST with `Content-Type: application/json` of the whole history to the relay with model `gpt-4o`, and the reply is the content, the "couldn't get a response" text or, on a thrown error, the "problem connecting" text |
| Completion.FixedRepliesDistinct | script.js:146-189 | the refusal, the missing-shape text and the connection-failure text are pairwise different |
| Completion.FailureHidesError | script.js:186-189 | the reply after a thrown error does not depend on the error |
| Completion.RefusalIgnoresNetwork | script.js:146-149 | a refused message gives the same outcome whatever the network would answer, with no request |
| Completion.RougeReply | script.js:173-181 | `{choices:[{message:{content:"**Rouge**..."}}]}`, with any other fields, gives "**Rouge**..." |
| Completion.EmptyBodyNoResponse | script.js:182-185 | `{}` gives the fixed "couldn't get a response" text |
| Completion.EmptyContentReturned | script.js:178-181 | an empty string content is a string, so it is returned as the reply |
| Completion.RefusalTextCanComeFromServer | script.js:28-29 | an in-domain message whose relay answers with the refusal sentence gets the refusal text after a request was made |
| ChatSession.Captured | script.js:46-49 | while no name is held the capture is the regular expression's `FindName` result; once a name is held nothing is captured; a captured name is a non-empty word |
| ChatSession.Asked | script.js:44-59 | the handler's pushes keep the old history as a prefix, add the announcement right after it when a name is captured, and end with the user's message |
| ChatSession.Record | script.js:44-77 | after the reply is recorded the history is what the client was given plus the assistant message; the name is kept if held, else it is the message's capture; the user and ai bubbles are added |
| ChatSession.Step | script.js:38-78 | the old history is a prefix of the new one; it grows by 3 when a name is captured (announcement first) and by 2 otherwise; the last two entries are the user message, equal to the input, and the assistant reply; the request carries the history up to the user message; a held name never changes, else it becomes the message's capture; two bubbles, user then ai, are added |
| ChatSession.StartInv | script.js:18-35 | the page starts with the persona alone, no name and an empty window, which satisfies the session invariant |
| ChatSession.RecordKeepsInv | script.js:46-77 | recording any reply after the name and user pushes keeps the session invariant |
| ChatSession.StepKeepsInv | script.js:46-77 | each submission keeps the invariant: persona first, exactly one announcement once a name is held and none before, and the transcript shows the user and assistant messages in order |
| ChatSession.RunKeepsInv | script.js:38-78 | any sequence of submissions keeps the invariant |
| ChatSession.Run | script.js:38-78 | after any submissions the old history is a prefix of the new one, which is at least two messages longer per submission |
| ChatSession.RunFirstNameWins | script.js:46-55 | after any submissions the held name is the one held before, or else the first name any message introduced |
| ChatSession.SessionFromStart | script.js:18-56 | from page load the persona stays first, the held name is the first one introduced, and there is at most one announcement |
| ChatSession.SecondIntroductionIgnored | script.js:46-59 | after "my name is Alice", a later introduction leaves the name unchanged and adds only the user and assistant messages |
| ChatSession.Session.constructor | script.js:17-35 | the session starts as `Start()` and is valid |
| ChatSession.Session.AppendMessage | script.js:81-115 | one bubble with the given sender and text is added at the end of the window; nothing else changes |
| ChatSession.Session.Submit | script.js:38-78 | the in-place handler leaves the session in exactly the state `Step` computes, returns `Step`'s exchange, and keeps the invariant |

## Left out

- The `fetch` call, `response.json()` and `JSON.stringify`. The network's answer is the `FetchResult` parameter. The request
  is recorded as a value (URL, method, content type, model, messages), not serialised.
- `console.log` and `console.error`: diagnostics only.
- DOM work: element lookup and creation, `preventDefault`, the "You asked:"
  line, clearing the input box, bubble colours and styles, and scrolling.
  The chat window is modelled as the sequence of (sender, text) bubbles the
  script adds. Bubbles that the page markup may already hold are not part
  of this model.
- Overlapping submissions. The `await` lets a second submission run before
  the first reply arrives, and replies can then be recorded out of order.
  Each submission is modelled as one atomic step.
- Requests that never settle. The code sets no timeout, so a `fetch` that
  neither answers nor throws leaves the user's message in the history with
  no assistant message after it. The model assumes every request ends with
  a body or a thrown error, which is why each submission adds two or three
  messages.
- `toLowerCase` beyond ASCII and Latin-1. Other scripts, and mappings that
  change a string's length, are treated as identity. One such character
  changes the gate's verdict: U+212A KELVIN SIGN lowers to ASCII `k` in
  JavaScript, so `"MA\u212AEUP"` passes the page's gate while `IsInDomain`
  refuses it. No other character outside Latin-1 lowers onto a keyword
  letter on its own.
- TopicGate.CaseInsensitive: holds for the model's case mapping only. With
  Unicode's full mapping, strings that upper-case alike can get different
  verdicts: `"haır"` (dotless ı) is refused, while its upper case `"HAIR"`
  passes.
- TopicGate.UpperCaseClassifiedAlike: `ToUpper` knows only ASCII and Latin-1.
  JavaScript's `toUpperCase` maps `"haır"` to `"HAIR"`, `"ſerum"` (long ſ)
  to `"SERUM"` and `"lipﬆick"` (the ſt ligature) to `"LIPSTICK"`. Each
  original is refused and its upper case passes, so the lemma does not carry
  over to the page's full Unicode casing.
- Property reads see only a parsed object's own fields. None of the names
  the code reads (`choices`, `message`, `content`) is an inherited
  property. JSON numbers are reals, and `NaN` cannot come out of
  `JSON.parse`.
