/**
 * The chatbot's conversational memory (main.py, class ChatBot).
 *
 * The agent executor is an external framework component; here it is an
 * oracle: the caller passes in what the executor did with the request.
 * The history is a sliding window over the most recent messages, and pairs
 * are only ever appended, so it always alternates user/assistant starting
 * with the user.
 */
module Conversation {
  import opened Wrappers

  /** One history record: a user turn or an assistant turn. */
  datatype Msg = Human(content: string) | AI(content: string)

  /** The history keeps the last ten messages, i.e. five exchanges; the cap is even. */
  const MaxHistory: nat := 10

  /** Returned when the agent executor raises. */
  const Apology: string :=
    "I apologize, but I encountered an error processing your request. Please try again."

  /** Returned (and recorded) when the executor's result has no "output" entry. */
  const NoOutput: string := "I'm sorry, I couldn't process that request."

  /** What the agent executor did with one request: it raised, or it returned
      a result whose "output" entry may be missing. */
  datatype AgentOutcome = Raised | Returned(output: Option<string>)

  function Min(a: int, b: int): int { if a <= b then a else b }

  /** Even length, user turns at even positions and assistant turns at odd ones. */
  ghost predicate Alternating(h: seq<Msg>)
  {
    |h| % 2 == 0 && forall i :: 0 <= i < |h| ==> (h[i].Human? <==> i % 2 == 0)
  }

  /** The invariant every bot's history keeps: alternating and within the cap. */
  ghost predicate BotInvariant(h: seq<Msg>)
  {
    Alternating(h) && |h| <= MaxHistory
  }

  /** The history after one successful exchange: both messages are appended,
      then only the last `MaxHistory` entries are kept. */
  function Recorded(h: seq<Msg>, input: string, output: string): (r: seq<Msg>)
    ensures |r| == Min(|h| + 2, MaxHistory)
    ensures r[|r| - 2] == Human(input) && r[|r| - 1] == AI(output)
    ensures forall i :: 0 <= i < |r| - 2 ==> r[i] == h[|h| - (|r| - 2) + i]
  {
    var full := h + [Human(input), AI(output)];
    if |full| > MaxHistory then full[|full| - MaxHistory..] else full
  }

  /** The text `chat` returns for an agent outcome. */
  function ReplyTo(agent: AgentOutcome): (reply: string)
    ensures agent.Raised? ==> reply == Apology
    ensures agent == Returned(None) ==> reply == NoOutput
    ensures agent.Returned? && agent.output.Some? ==> reply == agent.output.value
  {
    match agent
    case Raised => Apology
    case Returned(output) => output.GetOr(NoOutput)
  }

  /** The history after `chat`: unchanged when the agent raised. */
  function AfterChat(h: seq<Msg>, input: string, agent: AgentOutcome): (r: seq<Msg>)
    ensures agent.Raised? ==> r == h
    ensures agent.Returned? ==>
      |r| == Min(|h| + 2, MaxHistory) && r[|r| - 2] == Human(input) && r[|r| - 1] == AI(ReplyTo(agent))
  {
    match agent
    case Raised => h
    case Returned(_) => Recorded(h, input, ReplyTo(agent))
  }

  /** Pairs are appended and an even number of entries is dropped, so
      alternation survives every exchange. */
  lemma {:induction false} RecordedKeepsAlternating(h: seq<Msg>, input: string, output: string)
    requires Alternating(h)
    ensures Alternating(Recorded(h, input, output))
  {
    var r := Recorded(h, input, output);
    var shift := |h| - (|r| - 2);
    assert shift % 2 == 0;
    forall i | 0 <= i < |r|
      ensures r[i].Human? <==> i % 2 == 0
    {
      if i < |r| - 2 {
        assert r[i] == h[shift + i];
        assert (shift + i) % 2 == i % 2;
      }
    }
  }

  /** A history within the cap stays within it, whatever the agent did. */
  lemma AfterChatBounded(h: seq<Msg>, input: string, agent: AgentOutcome)
    ensures |h| <= MaxHistory ==> |AfterChat(h, input, agent)| <= MaxHistory
  {
  }

  /** The invariant the bot keeps: bounded and alternating. */
  lemma AfterChatKeepsInvariant(h: seq<Msg>, input: string, agent: AgentOutcome)
    requires BotInvariant(h)
    ensures BotInvariant(AfterChat(h, input, agent))
  {
    if agent.Returned? {
      RecordedKeepsAlternating(h, input, ReplyTo(agent));
    }
  }

  /** The first exchange of a fresh bot leaves exactly the two new messages. */
  lemma FirstExchange(input: string, output: string)
    ensures Recorded([], input, output) == [Human(input), AI(output)]
  {
  }

  class ChatBot {
    var history: seq<Msg>

    ghost predicate Valid()
      reads this
    {
      BotInvariant(history)
    }

    /** A new bot starts with an empty history. */
    constructor ()
      ensures Valid() && history == []
    {
      history := [];
    }

    /** Hands `userInput` to the agent. On success appends the user message
        and the reply, then keeps the last `MaxHistory`; if the agent raised,
        returns the apology and leaves the history alone. */
    method Chat(userInput: string, agent: AgentOutcome) returns (reply: string)
      modifies this
      ensures agent.Raised? ==> reply == Apology && history == old(history)
      ensures agent.Returned? ==> reply == agent.output.GetOr(NoOutput)
      ensures agent.Returned? ==> history == Recorded(old(history), userInput, reply)
      ensures reply == ReplyTo(agent) && history == AfterChat(old(history), userInput, agent)
      ensures old(Valid()) ==> Valid()
    {
      ghost var before := history;
      match agent
      case Raised =>
        reply := Apology;
      case Returned(output) =>
        reply := output.GetOr(NoOutput);
        history := history + [Human(userInput)];
        history := history + [AI(reply)];
        if |history| > MaxHistory {
          history := history[|history| - MaxHistory..];
        }
        assert history == Recorded(before, userInput, reply);
        if Alternating(before) {
          RecordedKeepsAlternating(before, userInput, reply);
        }
    }

    /** Empties the history. */
    method ClearHistory()
      modifies this
      ensures Valid() && history == []
    {
      history := [];
    }

    /** Returns the current history without changing it; a valid bot's
        history alternates, starting with the user. */
    method GetHistory() returns (h: seq<Msg>)
      ensures h == history
      ensures Valid() ==> Alternating(h) && |h| <= MaxHistory
    {
      h := history;
    }
  }
}
