/**
 * The chat session: the conversation history, the captured user name and
 * the transcript of bubbles, and the submit handler that updates them.
 */
module ChatSession {
  import opened Optional
  import opened Text
  import opened Messages
  import opened NameCapture
  import opened Completion

  /** The two bubble kinds `appendMessage` draws: `"user"` and `"ai"`. */
  datatype Sender = UserSender | AiSender

  /** One bubble of the chat window. */
  datatype Entry = Entry(sender: Sender, text: string)

  /** Everything a submission reads and writes. */
  datatype State = State(history: seq<Message>, userName: Option<string>, transcript: seq<Entry>)

  /** One submission: the typed text and what the network would answer. */
  datatype Input = Input(message: string, net: FetchResult)

  /** The state when the page has loaded. */
  function Start(): State
  {
    State([Persona], None, [])
  }

  /** The number of system-role messages in a history. */
  function SystemCount(h: seq<Message>): nat
  {
    if h == [] then 0
    else SystemCount(h[..|h| - 1]) + (if h[|h| - 1].role == System then 1 else 0)
  }

  /** The bubble a message gets, if any: system messages are never shown. */
  function Bubble(m: Message): seq<Entry>
  {
    match m.role
    case System => []
    case User => [Entry(UserSender, m.content)]
    case Assistant => [Entry(AiSender, m.content)]
  }

  /** The transcript a history is displayed as. */
  function Visible(h: seq<Message>): seq<Entry>
  {
    if h == [] then [] else Visible(h[..|h| - 1]) + Bubble(h[|h| - 1])
  }

  /** The session invariant: the persona opens the history, the only
      other system message is the announcement of the captured name (one
      when a name is held, none otherwise), a held name is a word, and the
      transcript shows exactly the user and assistant messages in order. */
  ghost predicate Inv(s: State)
  {
    |s.history| >= 1 && s.history[0] == Persona &&
    SystemCount(s.history) == (if s.userName.Some? then 2 else 1) &&
    (s.userName.Some? ==> IsWord(s.userName.value) && NameMessage(s.userName.value) in s.history) &&
    s.transcript == Visible(s.history)
  }

  /** The name a submission captures: only while none is held. */
  function Captured(held: Option<string>, message: string): (r: Option<string>)
    ensures held.Some? ==> r.None?
    ensures held.None? ==> r == FindName(message)
    ensures r.Some? ==> IsWord(r.value)
  {
    if held.None? then FindName(message) else None
  }

  /** The history once the handler has pushed the name announcement, if
      any, and the user's message: what the client is given. */
  function Asked(s: State, message: string): (r: seq<Message>)
    ensures s.history <= r
    ensures |r| == |s.history| + (if Captured(s.userName, message).Some? then 2 else 1)
    ensures Captured(s.userName, message).Some? ==>
      r[|s.history|] == NameMessage(Captured(s.userName, message).value)
    ensures r[|r| - 1] == Message(User, message)
  {
    var captured := Captured(s.userName, message);
    s.history + (if captured.Some? then [NameMessage(captured.value)] else []) + [Message(User, message)]
  }

  /** The state once the handler has recorded `reply`. */
  function Record(s: State, message: string, reply: string): (r: State)
    ensures |r.history| == |Asked(s, message)| + 1
    ensures r.history[..|r.history| - 1] == Asked(s, message)
    ensures r.history[|r.history| - 1] == Message(Assistant, reply)
    ensures r.userName == if s.userName.Some? then s.userName else FindName(message)
    ensures r.transcript == s.transcript + [Entry(UserSender, message), Entry(AiSender, reply)]
  {
    assert (Asked(s, message) + [Message(Assistant, reply)])[..|Asked(s, message)|] == Asked(s, message);
    var captured := Captured(s.userName, message);
    State(Asked(s, message) + [Message(Assistant, reply)],
          if captured.Some? then captured else s.userName,
          s.transcript + [Entry(UserSender, message), Entry(AiSender, reply)])
  }

  /** One run of the submit handler, as one atomic step. */
  function Step(s: State, message: string, net: FetchResult): (r: (State, Exchange))
    ensures s.history <= r.0.history
    ensures |r.0.history| == |s.history| + (if Captured(s.userName, message).Some? then 3 else 2)
    ensures Captured(s.userName, message).Some? ==>
      r.0.history[|s.history|] == NameMessage(Captured(s.userName, message).value)
    ensures r.0.history[|r.0.history| - 2] == Message(User, message)
    ensures r.0.history[|r.0.history| - 1] == Message(Assistant, r.1.reply)
    ensures r.1 == GetReply(r.0.history[..|r.0.history| - 1], message, net)
    ensures s.userName.Some? ==> r.0.userName == s.userName
    ensures s.userName.None? ==> r.0.userName == FindName(message)
    ensures r.0.transcript == s.transcript + [Entry(UserSender, message), Entry(AiSender, r.1.reply)]
  {
    var asked := Asked(s, message);
    var ex := GetReply(asked, message, net);
    assert (asked + [Message(Assistant, ex.reply)])[..|asked|] == asked;
    (Record(s, message, ex.reply), ex)
  }

  /** Submissions one after another. */
  function Run(s: State, inputs: seq<Input>): (r: State)
    ensures s.history <= r.history
    ensures |r.history| >= |s.history| + 2 * |inputs|
    decreases |inputs|
  {
    if inputs == [] then s else Run(Step(s, inputs[0].message, inputs[0].net).0, inputs[1..])
  }

  /** The first name any of the messages introduces. */
  function FirstName(inputs: seq<Input>): Option<string>
  {
    if inputs == [] then None
    else if FindName(inputs[0].message).Some? then FindName(inputs[0].message)
    else FirstName(inputs[1..])
  }

  /** Counting system messages distributes over appending. */
  lemma {:induction false} SystemCountAppend(a: seq<Message>, b: seq<Message>)
    ensures SystemCount(a + b) == SystemCount(a) + SystemCount(b)
    decreases |b|
  {
    if b != [] {
      var ab := a + b;
      assert ab[..|ab| - 1] == a + b[..|b| - 1];
      SystemCountAppend(a, b[..|b| - 1]);
    } else {
      assert a + b == a;
    }
  }

  /** Displaying a history distributes over appending. */
  lemma {:induction false} VisibleAppend(a: seq<Message>, b: seq<Message>)
    ensures Visible(a + b) == Visible(a) + Visible(b)
    decreases |b|
  {
    if b != [] {
      var ab := a + b;
      assert ab[..|ab| - 1] == a + b[..|b| - 1];
      VisibleAppend(a, b[..|b| - 1]);
    } else {
      assert a + b == a;
    }
  }

  /** The page starts in a state that satisfies the invariant. */
  lemma StartInv()
    ensures Inv(Start())
  {
    assert [Persona][..0] == [];
  }

  /** A one-message history counts and displays as that message alone. */
  lemma Single(m: Message)
    ensures SystemCount([m]) == if m.role == System then 1 else 0
    ensures Visible([m]) == Bubble(m)
  {
    assert [m][..0] == [];
  }

  /** Appending one message adds its count and its bubble. */
  lemma AppendOne(h: seq<Message>, m: Message)
    ensures SystemCount(h + [m]) == SystemCount(h) + if m.role == System then 1 else 0
    ensures Visible(h + [m]) == Visible(h) + Bubble(m)
  {
    SystemCountAppend(h, [m]);
    VisibleAppend(h, [m]);
    Single(m);
  }

  /** The messages one submission appends: the announcement of a newly
      captured name, if any, then the user's message and the reply. */
  function Pushed(captured: Option<string>, message: string, reply: string): seq<Message>
  {
    (if captured.Some? then [NameMessage(captured.value)] else []) +
    [Message(User, message)] + [Message(Assistant, reply)]
  }

  /** What those messages add: one system message exactly when a name was
      captured, and the user and ai bubbles. */
  lemma PushedCounts(captured: Option<string>, message: string, reply: string)
    ensures SystemCount(Pushed(captured, message, reply)) == if captured.Some? then 1 else 0
    ensures Visible(Pushed(captured, message, reply)) == [Entry(UserSender, message), Entry(AiSender, reply)]
  {
    var named := if captured.Some? then [NameMessage(captured.value)] else [];
    AppendOne(named + [Message(User, message)], Message(Assistant, reply));
    AppendOne(named, Message(User, message));
    if captured.Some? {
      Single(NameMessage(captured.value));
    }
  }

  /** Recording a reply keeps the invariant, whatever the reply. */
  lemma RecordKeepsInv(s: State, message: string, reply: string)
    requires Inv(s)
    ensures Inv(Record(s, message, reply))
  {
    var captured := Captured(s.userName, message);
    var p := Pushed(captured, message, reply);
    var h := s.history + p;
    assert Record(s, message, reply).history == h;
    SystemCountAppend(s.history, p);
    VisibleAppend(s.history, p);
    PushedCounts(captured, message, reply);
    if captured.Some? {
      assert h[|s.history|] == NameMessage(captured.value);
    } else if s.userName.Some? {
      var i :| 0 <= i < |s.history| && s.history[i] == NameMessage(s.userName.value);
      assert h[i] == s.history[i];
    }
    assert h[0] == Persona;
  }

  /** Every submission keeps the invariant. */
  lemma StepKeepsInv(s: State, message: string, net: FetchResult)
    requires Inv(s)
    ensures Inv(Step(s, message, net).0)
  {
    RecordKeepsInv(s, message, GetReply(Asked(s, message), message, net).reply);
  }

  /** Any number of submissions keeps the invariant. */
  lemma {:induction false} RunKeepsInv(s: State, inputs: seq<Input>)
    requires Inv(s)
    ensures Inv(Run(s, inputs))
    decreases |inputs|
  {
    if inputs != [] {
      StepKeepsInv(s, inputs[0].message, inputs[0].net);
      RunKeepsInv(Step(s, inputs[0].message, inputs[0].net).0, inputs[1..]);
    }
  }

  /** First match wins: after any submissions the held name is the one held
      before, or else the first name any message introduced. */
  lemma {:induction false} RunFirstNameWins(s: State, inputs: seq<Input>)
    ensures Run(s, inputs).userName == if s.userName.Some? then s.userName else FirstName(inputs)
    decreases |inputs|
  {
    if inputs != [] {
      var t := Step(s, inputs[0].message, inputs[0].net).0;
      RunFirstNameWins(t, inputs[1..]);
    }
  }

  /** From page load, the persona stays first and the name announced is the
      first one introduced; at most one announcement is ever made. */
  lemma SessionFromStart(inputs: seq<Input>)
    ensures |Run(Start(), inputs).history| >= 1 && Run(Start(), inputs).history[0] == Persona
    ensures Run(Start(), inputs).userName == FirstName(inputs)
    ensures SystemCount(Run(Start(), inputs).history) == if FirstName(inputs).Some? then 2 else 1
  {
    StartInv();
    RunKeepsInv(Start(), inputs);
    RunFirstNameWins(Start(), inputs);
  }

  /** Once a name is held, a second introduction changes nothing about it
      and adds no announcement. */
  lemma SecondIntroductionIgnored(s: State, first: Input, second: Input)
    requires s.userName.None? && FindName(first.message).Some?
    ensures
      var t := Step(s, first.message, first.net).0;
      var u := Step(t, second.message, second.net).0;
      t.userName == u.userName == FindName(first.message) &&
      |u.history| == |t.history| + 2
  {
  }

  /** The browser-side session: the history array, the `userName`
      variable and the chat window's bubbles, updated in place. */
  class Session {
    var history: seq<Message>
    var userName: Option<string>
    var transcript: seq<Entry>

    /** The session's current value. */
    function Snapshot(): State
      reads this
    {
      State(history, userName, transcript)
    }

    ghost predicate Valid()
      reads this
    {
      Inv(Snapshot())
    }

    /** Page load: the persona alone, no name, an empty chat window. */
    constructor ()
      ensures Valid()
      ensures Snapshot() == Start()
    {
      history := [Persona];
      userName := None;
      transcript := [];
      new;
      StartInv();
    }

    /** `appendMessage(sender, text)`: one bubble at the end of the window. */
    method AppendMessage(sender: Sender, text: string)
      modifies this
      ensures transcript == old(transcript) + [Entry(sender, text)]
      ensures history == old(history) && userName == old(userName)
    {
      transcript := transcript + [Entry(sender, text)];
    }

    /** The submit handler: capture a name if none is held, record and show
        the user's message, ask the client, record and show its reply. */
    method Submit(userMessage: string, net: FetchResult) returns (ex: Exchange)
      requires Valid()
      modifies this
      ensures Valid()
      ensures (Snapshot(), ex) == Step(old(Snapshot()), userMessage, net)
      ensures old(history) <= history && history[0] == Persona
    {
      ghost var before := Snapshot();
      ghost var captured := Captured(userName, userMessage);
      if userName.None? {
        var nameMatch := FindName(userMessage);
        if nameMatch.Some? {
          userName := nameMatch;
          history := history + [NameMessage(nameMatch.value)];
        }
      }
      assert history == before.history + if captured.Some? then [NameMessage(captured.value)] else [];
      assert userName == if captured.Some? then captured else before.userName;
      history := history + [Message(User, userMessage)];
      AppendMessage(UserSender, userMessage);
      ex := GetReply(history, userMessage, net);
      history := history + [Message(Assistant, ex.reply)];
      AppendMessage(AiSender, ex.reply);
      assert transcript == before.transcript + [Entry(UserSender, userMessage), Entry(AiSender, ex.reply)];
      assert (Snapshot(), ex) == Step(before, userMessage, net);
      StepKeepsInv(before, userMessage, net);
    }
  }
}
