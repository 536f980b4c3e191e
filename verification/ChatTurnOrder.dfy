/** What the turns of the console keep of the order of a conversation. */
module ChatTurnOrder {
  import opened Wrappers
  import opened ChatTurns

  /** The calls and pieces of text among the parts, one by one and in order. */
  function Spoken(parts: seq<Part>): seq<Part> {
    if parts == [] then [] else Spoken(parts[..|parts| - 1]) + (if Last(parts).Thinking? then [] else [Last(parts)])
  }

  /** Those of the assistant turns, end to end. */
  function TurnSpoken(turns: seq<Turn>): seq<Part> {
    if turns == [] then []
    else TurnSpoken(turns[..|turns| - 1]) + (if Last(turns).role == Assistant then Spoken(Last(turns).parts) else [])
  }

  /** Those of the assistant messages, each for itself, end to end. */
  function AssistantSpoken(all: seq<Message>, messages: seq<Message>): seq<Part> {
    if messages == [] then []
    else AssistantSpoken(all, messages[..|messages| - 1])
         + (if Last(messages).role == Assistant then Spoken(ShownParts(all, Last(messages))) else [])
  }

  lemma SpokenOfPush(parts: seq<Part>, part: Part)
    ensures Spoken(parts + [part]) == Spoken(parts) + (if part.Thinking? then [] else [part])
  {
    assert (parts + [part])[..|parts|] == parts;
  }

  lemma {:induction false} SpokenOfConcat(a: seq<Part>, b: seq<Part>)
    ensures Spoken(a + b) == Spoken(a) + Spoken(b)
  {
    if b == [] {
      assert a + b == a;
    } else {
      var front := b[..|b| - 1];
      SpokenOfConcat(a, front);
      SpokenOfPush(a + front, Last(b));
      assert a + b == a + front + [Last(b)];
    }
  }

  lemma SpokenOfThinking(parts: seq<Part>, chunk: Part)
    requires chunk.Thinking?
    ensures Spoken(AppendProse(parts, chunk, BLANK_LINE)) == Spoken(parts)
  {
    if chunk.value == "" {
    } else if parts != [] && SameProse(Last(parts), chunk) {
      var r := AppendProse(parts, chunk, BLANK_LINE);
      assert r[..|r| - 1] == parts[..|parts| - 1];
    } else {
      SpokenOfPush(parts, chunk);
    }
  }

  /** Joining two turns joins reasoning only: no piece of text and no call is touched or moved. */
  lemma SpokenOfMerge(previous: seq<Part>, next: seq<Part>)
    ensures Spoken(MergeTurnParts(previous, next)) == Spoken(previous) + Spoken(next)
  {
    if next != [] && next[0].Thinking? {
      SpokenOfThinking(previous, next[0]);
      SpokenOfConcat(AppendProse(previous, next[0], BLANK_LINE), next[1..]);
      SpokenOfPush([], next[0]);
      assert [] + [next[0]] == [next[0]];
      SpokenOfConcat([next[0]], next[1..]);
      assert next == [next[0]] + next[1..];
    } else {
      SpokenOfConcat(previous, next);
    }
  }

  lemma SpokenOfTurn(turns: seq<Turn>, turn: Turn)
    ensures TurnSpoken(turns + [turn]) == TurnSpoken(turns) + (if turn.role == Assistant then Spoken(turn.parts) else [])
  {
    assert (turns + [turn])[..|turns|] == turns;
  }

  /** The last turn is written again with more calls and text at its end. */
  lemma ReplaceSpoken(turns: seq<Turn>, turn: Turn, more: seq<Part>)
    requires turns != [] && Last(turns).role == Assistant && turn.role == Assistant
    requires Spoken(turn.parts) == Spoken(Last(turns).parts) + more
    ensures TurnSpoken(turns[|turns| - 1 := turn]) == TurnSpoken(turns) + more
  {
    var front := turns[..|turns| - 1];
    SpokenOfTurn(front, turn);
    assert turns[|turns| - 1 := turn] == front + [turn];
    ConcatAssociative(TurnSpoken(front), Spoken(Last(turns).parts), more);
  }

  lemma PushSpoken(all: seq<Message>, turns: seq<Turn>, message: Message)
    ensures TurnSpoken(Push(all, turns, message))
         == TurnSpoken(turns) + (if message.role == Assistant then Spoken(ShownParts(all, message)) else [])
  {
    if !Visible(all, message) {
    } else if message.role != Assistant || turns == [] || Last(turns).role != Assistant {
      SpokenOfTurn(turns, OwnTurn(all, message));
    } else {
      var parts := ShownParts(all, message);
      var turn := Last(Push(all, turns, message));
      SpokenOfMerge(Last(turns).parts, parts);
      assert Push(all, turns, message) == turns[|turns| - 1 := turn];
      ReplaceSpoken(turns, turn, Spoken(parts));
    }
  }

  /** The assistant turns, with their reasoning left aside, hold the same calls and the same pieces of
      text as the assistant messages, in the same order and cut at the same places. */
  lemma {:induction false} SpokenConserved(all: seq<Message>, messages: seq<Message>)
    ensures TurnSpoken(Project(all, messages)) == AssistantSpoken(all, messages)
  {
    if messages != [] {
      var front := messages[..|messages| - 1];
      SpokenConserved(all, front);
      PushSpoken(all, Project(all, front), Last(messages));
    }
  }
}
