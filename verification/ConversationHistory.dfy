/** The conversation history kept in working memory, through every way a turn can end. */
module ConversationHistory {
  datatype Message = Message(who: string, text: string)

  const MAX_HISTORY: nat := 20

  /** Python's `items[-n:]`; a zero takes everything. */
  function FromEnd<T>(items: seq<T>, n: int): seq<T> {
    if n == 0 then items
    else if n > 0 then (if n < |items| then items[|items| - n..] else items)
    else if -n < |items| then items[-n..] else []
  }

  /**
   How a turn ends: answered, answered by a fast reply, or cut short by a failure; or a deprecated
   append. Such appends may also come after the user's message, while the turn goes on.
   */
  datatype Turn =
    | Answered(user: Message, between: seq<Message>, reply: Message)
    | FastReply
    | RecallFails(user: Message, between: seq<Message>)
    | AgentFails(user: Message, between: seq<Message>)
    | Appended(message: Message)

  /** The messages a turn adds to the conversation. */
  function Messages(turn: Turn): seq<Message> {
    match turn
    case Answered(user, between, reply) => [user] + between + [reply]
    case FastReply => []
    case RecallFails(user, between) => [user] + between
    case AgentFails(user, between) => [user] + between
    case Appended(message) => [message]
  }

  function Pushed(history: seq<Message>, message: Message): seq<Message> {
    FromEnd(history + [message], MAX_HISTORY)
  }

  function AfterTurn(history: seq<Message>, turn: Turn): seq<Message> {
    match turn
    case Answered(user, between, reply) => Pushed(Pushed(history, user) + between, reply)
    case FastReply => history
    case RecallFails(user, between) => Pushed(history, user) + between
    case AgentFails(user, between) => Pushed(history, user) + between
    case Appended(message) => history + [message]
  }

  function History(turns: seq<Turn>): seq<Message> {
    if turns == [] then [] else AfterTurn(History(turns[..|turns| - 1]), turns[|turns| - 1])
  }

  /** The whole conversation. */
  function Conversation(turns: seq<Turn>): seq<Message> {
    if turns == [] then [] else Conversation(turns[..|turns| - 1]) + Messages(turns[|turns| - 1])
  }

  function Min(a: nat, b: nat): nat {
    if a < b then a else b
  }

  /** The history is a suffix of the conversation, of at least twenty messages if there were as many. */
  predicate Window(history: seq<Message>, conversation: seq<Message>) {
    && |history| <= |conversation|
    && history == conversation[|conversation| - |history|..]
    && |history| >= Min(MAX_HISTORY, |conversation|)
  }

  lemma AppendsKeepWindow(history: seq<Message>, conversation: seq<Message>, messages: seq<Message>)
    requires Window(history, conversation)
    ensures Window(history + messages, conversation + messages)
  {
    var longer, all := history + messages, conversation + messages;
    assert longer == all[|all| - |longer|..];
  }

  /** Right after an update the history is exactly the last twenty messages. */
  lemma AppendKeepsWindow(history: seq<Message>, conversation: seq<Message>, message: Message)
    requires Window(history, conversation)
    ensures Window(Pushed(history, message), conversation + [message])
    ensures Pushed(history, message) == FromEnd(conversation + [message], MAX_HISTORY)
  {
    var longer, all := history + [message], conversation + [message];
    assert longer == all[|all| - |longer|..];
    if MAX_HISTORY < |longer| {
      assert longer[|longer| - MAX_HISTORY..] == all[|all| - MAX_HISTORY..];
    }
  }

  lemma TurnKeepsWindow(history: seq<Message>, conversation: seq<Message>, turn: Turn)
    requires Window(history, conversation)
    ensures Window(AfterTurn(history, turn), conversation + Messages(turn))
    ensures turn.Answered? || ((turn.RecallFails? || turn.AgentFails?) && turn.between == []) ==>
              AfterTurn(history, turn) == FromEnd(conversation + Messages(turn), MAX_HISTORY)
  {
    hide Window, Pushed, FromEnd;
    match turn
    case FastReply =>
      assert conversation + [] == conversation;
    case Appended(message) =>
      AppendsKeepWindow(history, conversation, [message]);
    case Answered(user, between, reply) =>
      UserKeepsWindow(history, conversation, user, between);
      AppendKeepsWindow(Pushed(history, user) + between, conversation + ([user] + between), reply);
      assert conversation + ([user] + between) + [reply] == conversation + ([user] + between + [reply]);
    case RecallFails(user, between) =>
      UserKeepsWindow(history, conversation, user, between);
    case AgentFails(user, between) =>
      UserKeepsWindow(history, conversation, user, between);
  }

  lemma UserKeepsWindow(history: seq<Message>, conversation: seq<Message>, user: Message, between: seq<Message>)
    requires Window(history, conversation)
    ensures Window(Pushed(history, user) + between, conversation + ([user] + between))
    ensures between == [] ==> Pushed(history, user) + between == FromEnd(conversation + ([user] + between), MAX_HISTORY)
  {
    hide Window, Pushed, FromEnd;
    AppendKeepsWindow(history, conversation, user);
    AppendsKeepWindow(Pushed(history, user), conversation + [user], between);
    assert conversation + [user] + between == conversation + ([user] + between);
    if between == [] {
      assert Pushed(history, user) + between == Pushed(history, user) && [user] + between == [user];
    }
  }

  /** Through any sequence of turns the history is a window at the end of the conversation. */
  lemma {:induction false} HistoryIsWindow(turns: seq<Turn>)
    ensures Window(History(turns), Conversation(turns))
  {
    if turns != [] {
      var n := |turns| - 1;
      HistoryIsWindow(turns[..n]);
      TurnKeepsWindow(History(turns[..n]), Conversation(turns[..n]), turns[n]);
    }
  }

  /** After a turn that ended with an update the history is exactly the last twenty messages. */
  lemma ExactAfterUpdate(turns: seq<Turn>)
    requires turns != []
    requires var last := turns[|turns| - 1]; last.Answered? || ((last.RecallFails? || last.AgentFails?) && last.between == [])
    ensures History(turns) == FromEnd(Conversation(turns), MAX_HISTORY)
    ensures |History(turns)| == Min(MAX_HISTORY, |Conversation(turns)|)
  {
    hide Window, AfterTurn, Messages, FromEnd;
    var n := |turns| - 1;
    HistoryIsWindow(turns[..n]);
    TurnKeepsWindow(History(turns[..n]), Conversation(turns[..n]), turns[n]);
    FromEndSize(Conversation(turns));
  }

  lemma FromEndSize(messages: seq<Message>)
    ensures |FromEnd(messages, MAX_HISTORY)| == Min(MAX_HISTORY, |messages|)
  {
  }

  /** What was said last is at the end of the history: the reply, or the user's message when there was none. */
  lemma LastSaid(turns: seq<Turn>, user: Message, reply: Message)
    ensures var answered := History(turns + [Answered(user, [], reply)]);
            |answered| >= 2 && answered[|answered| - 2..] == [user, reply]
    ensures var failed := History(turns + [RecallFails(user, [])]); failed != [] && failed[|failed| - 1] == user
    ensures var failed := History(turns + [AgentFails(user, [])]); failed != [] && failed[|failed| - 1] == user
    ensures History(turns + [FastReply]) == History(turns)
    ensures History(turns + [Appended(user)]) == History(turns) + [user]
  {
    hide FromEnd, Pushed, History;
    var history := History(turns);
    var pushed := Pushed(history, user);
    HistoryNext(turns, Answered(user, [], reply));
    HistoryNext(turns, RecallFails(user, []));
    HistoryNext(turns, AgentFails(user, []));
    HistoryNext(turns, FastReply);
    HistoryNext(turns, Appended(user));
    PushedLast(history, user);
    assert pushed + [] == pushed;
    PushedLast(pushed, reply);
  }

  lemma HistoryNext(turns: seq<Turn>, turn: Turn)
    ensures History(turns + [turn]) == AfterTurn(History(turns), turn)
  {
    hide AfterTurn;
    assert (turns + [turn])[..|turns|] == turns;
  }

  lemma PushedLast(history: seq<Message>, message: Message)
    ensures var pushed := Pushed(history, message);
            && pushed != [] && pushed[|pushed| - 1] == message
            && (history != [] ==> |pushed| >= 2 && pushed[|pushed| - 2] == history[|history| - 1])
  {
  }

  function Line(m: Message): string {
    "\n - " + m.who + ": " + m.text
  }

  function Render(messages: seq<Message>): string {
    if messages == [] then "" else Render(messages[..|messages| - 1]) + Line(messages[|messages| - 1])
  }

  /** A message is shown as a line with who said it and what. */
  lemma RenderLine(m: Message)
    ensures Render([m]) == "\n - " + m.who + ": " + m.text && Render([]) == ""
  {
    assert [m][..0] == [];
  }

  /** Messages are shown in order. */
  lemma {:induction false} RenderInOrder(a: seq<Message>, b: seq<Message>)
    ensures Render(a + b) == Render(a) + Render(b)
    decreases |b|
  {
    hide Line;
    if b == [] {
      assert a + b == a;
    } else {
      var n := |b| - 1;
      RenderInOrder(a, b[..n]);
      assert (a + b)[..|a| + n] == a + b[..n];
      assert Render(a) + Render(b[..n]) + Line(b[n]) == Render(a) + (Render(b[..n]) + Line(b[n]));
    }
  }

  /** The end of a list: so many items from the end, or, for a negative count, all but so many from the front. */
  lemma EndOf<T>(front: seq<T>, back: seq<T>)
    ensures FromEnd(front + back, 0) == front + back
    ensures back != [] ==> FromEnd(front + back, |back|) == back && forall n: int | n >= |back| :: FromEnd(back, n) == back
    ensures front != [] ==> FromEnd(front + back, -|front|) == back
  {
  }

  /** What is shown of the last turns is what was last said, for up to twenty messages. */
  lemma ShowsLatest(turns: seq<Turn>, n: nat)
    requires 0 < n <= MAX_HISTORY
    ensures Render(FromEnd(History(turns), n)) == Render(FromEnd(Conversation(turns), n))
  {
    hide History, Conversation, Render, Window;
    HistoryIsWindow(turns);
    SameEnd(History(turns), Conversation(turns), n);
  }

  lemma SameEnd(history: seq<Message>, conversation: seq<Message>, n: nat)
    requires Window(history, conversation) && 0 < n <= MAX_HISTORY
    ensures FromEnd(history, n) == FromEnd(conversation, n)
  {
    if n < |history| {
      var cut := |conversation| - |history|;
      assert conversation[cut..][|history| - n..] == conversation[|conversation| - n..];
    }
  }

  class WorkingMemory {
    var history: seq<Message>

    constructor ()
      ensures history == []
    {
      history := [];
    }

    method UpdateHistory(message: Message)
      modifies this
      ensures history == Pushed(old(history), message)
    {
      history := history + [message];
      history := FromEnd(history, MAX_HISTORY);
    }

    method UpdateConversationHistory(message: Message)
      modifies this
      ensures history == old(history) + [message]
    {
      history := history + [message];
    }

    method StringifyChatHistory(latest: int) returns (text: string)
      ensures text == Render(FromEnd(history, latest))
    {
      var recent := FromEnd(history, latest);
      text := "";
      for i := 0 to |recent|
        invariant text == Render(recent[..i])
      {
        assert text + "\n - " + recent[i].who + ": " + recent[i].text == text + Line(recent[i]);
        text := text + "\n - " + recent[i].who + ": " + recent[i].text;
        assert recent[..i + 1][..i] == recent[..i];
      }
      assert recent[..|recent|] == recent;
    }

    /** One turn of the conversation, along whichever exit path it takes. */
    method TakeTurn(turn: Turn)
      modifies this
      ensures history == AfterTurn(old(history), turn)
    {
      match turn
      case FastReply =>
      case Appended(message) =>
        UpdateConversationHistory(message);
      case Answered(user, between, reply) =>
        UpdateHistory(user);
        AppendAll(between);
        UpdateHistory(reply);
      case RecallFails(user, between) =>
        UpdateHistory(user);
        AppendAll(between);
      case AgentFails(user, between) =>
        UpdateHistory(user);
        AppendAll(between);
    }

    /** Deprecated appends by plugins. */
    method AppendAll(messages: seq<Message>)
      modifies this
      ensures history == old(history) + messages
    {
      for i := 0 to |messages|
        invariant history == old(history) + messages[..i]
      {
        UpdateConversationHistory(messages[i]);
        assert messages[..i + 1] == messages[..i] + [messages[i]];
      }
      assert messages[..|messages|] == messages;
    }
  }
}
