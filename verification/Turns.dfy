/** Messages and complete turns (src/zglab_rag/conversation/models.py and the two identical
    `_complete_turns` of context.py and summary.py). */
module Turns {
  datatype Role = USER | ASSISTANT

  datatype Message = Message(id: int, role: Role, content: string, created: int)

  datatype Turn = Turn(user: Message, assistant: Message)

  /** A user message directly followed by an assistant message. */
  predicate TurnAt(messages: seq<Message>, i: int) {
    0 <= i < |messages| - 1 && messages[i].role == USER && messages[i + 1].role == ASSISTANT
  }

  /** The turns that start before position `n`, in order. */
  function TurnsBefore(messages: seq<Message>, n: nat): (turns: seq<Turn>) {
    if n == 0 then []
    else TurnsBefore(messages, n - 1)
         + if TurnAt(messages, n - 1) then [Turn(messages[n - 1], messages[n])] else []
  }

  /** All complete turns of a conversation. */
  function CompleteTurns(messages: seq<Message>): seq<Turn> {
    TurnsBefore(messages, |messages|)
  }

  /** The source's greedy pairing loop finds every adjacent pair: pairs cannot overlap. */
  method PairUp(messages: seq<Message>) returns (turns: seq<Turn>)
    ensures turns == CompleteTurns(messages)
  {
    turns := [];
    var index := 0;
    while index + 1 < |messages|
      invariant index <= |messages|
      invariant turns == TurnsBefore(messages, index)
    {
      var user, assistant := messages[index], messages[index + 1];
      if user.role == USER && assistant.role == ASSISTANT {
        turns := turns + [Turn(user, assistant)];
        assert TurnAt(messages, index) && !TurnAt(messages, index + 1);
        index := index + 2;
      } else {
        index := index + 1;
      }
    }
    if index < |messages| {
      assert !TurnAt(messages, index);
    }
  }

  lemma {:induction false} QuestionsMakeNoTurn(messages: seq<Message>, n: nat)
    requires n <= |messages| && forall m :: m in messages ==> m.role == USER
    ensures TurnsBefore(messages, n) == []
  {
    if n > 0 {
      QuestionsMakeNoTurn(messages, n - 1);
      if n < |messages| {
        assert messages[n] in messages;
      }
    }
  }

  lemma {:induction false} TurnsOfPrefix(messages: seq<Message>, m: nat, n: nat)
    requires m <= |messages|
    requires n < m || (n == m && !TurnAt(messages, m - 1)) || n == 0
    ensures TurnsBefore(messages[..m], n) == TurnsBefore(messages, n)
  {
    if n > 0 {
      TurnsOfPrefix(messages, m, n - 1);
    }
  }

  lemma {:induction false} TurnsOfSuffix(messages: seq<Message>, m: nat, n: nat)
    requires m <= |messages| && n <= |messages| - m
    ensures TurnsBefore(messages, m + n) == TurnsBefore(messages, m) + TurnsBefore(messages[m..], n)
  {
    if n > 0 {
      TurnsOfSuffix(messages, m, n - 1);
      assert TurnAt(messages, m + n - 1) <==> TurnAt(messages[m..], n - 1);
    }
  }

  /** Cutting a conversation where no turn straddles the cut splits its turns. */
  lemma TurnsSplit(messages: seq<Message>, m: nat)
    requires m <= |messages| && !TurnAt(messages, m - 1)
    ensures CompleteTurns(messages) == CompleteTurns(messages[..m]) + CompleteTurns(messages[m..])
  {
    TurnsOfPrefix(messages, m, m);
    TurnsOfSuffix(messages, m, |messages| - m);
  }
}
