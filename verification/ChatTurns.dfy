/** The transcript of the console: messages become turns. Consecutive assistant messages are one
    turn, tool results are joined back onto their calls, and an interrupted run is marked. */
module ChatTurns {
  import opened Wrappers

  datatype ContentPart =
    | PlainString(value: string)
    | ToolCall(callId: Option<string>, name: Option<string>, arguments: nat)
    | ThinkingBlock(thinking: Option<string>)
    | TextBlock(text: Option<string>)
    | OtherPart

  datatype Content = NoContent | StringContent(value: string) | PartsContent(parts: seq<ContentPart>)

  datatype Role = User | Assistant | ToolResult | CompactionSummary | Custom | OtherRole

  datatype Message = Message(
    role: Role,
    content: Content,
    toolCallId: Option<string>,
    isError: bool,
    aborted: bool,
    display: bool,
    summary: Option<string>,
    tokensBefore: Option<nat>
  )

  datatype Part =
    | Text(value: string)
    | Thinking(value: string)
    | Tool(id: string, name: string, arguments: nat, result: Option<string>, failed: bool)

  datatype Turn = Turn(role: Role, text: string, parts: seq<Part>, stopped: bool, tokensBefore: Option<nat>)

  datatype Result = Result(text: string, failed: bool)

  const BLANK_LINE := "\n\n"

  // ----- the parts of one message

  predicate SameProse(a: Part, b: Part) {
    (a.Text? && b.Text?) || (a.Thinking? && b.Thinking?)
  }

  /** A chunk of prose continues the one in front of it. */
  function AppendProse(parts: seq<Part>, chunk: Part, separator: string): seq<Part>
    requires !chunk.Tool?
  {
    if chunk.value == "" then parts
    else if parts != [] && SameProse(Last(parts), chunk) then
      parts[|parts| - 1 := chunk.(value := Last(parts).value + separator + chunk.value)]
    else parts + [chunk]
  }

  function AppendPart(parts: seq<Part>, part: ContentPart): seq<Part> {
    match part
    case PlainString(value) => AppendProse(parts, Text(value), "")
    case ToolCall(id, name, arguments) =>
      if name.None? then parts
      else parts + [Tool(if id.Some? then id.value else "", name.value, arguments, None, false)]
    case ThinkingBlock(thinking) =>
      if thinking.Some? then AppendProse(parts, Thinking(thinking.value), BLANK_LINE) else parts
    case TextBlock(text) => if text.Some? then AppendProse(parts, Text(text.value), "") else parts
    case OtherPart => parts
  }

  function PartsOf(content: seq<ContentPart>): seq<Part> {
    if content == [] then [] else AppendPart(PartsOf(content[..|content| - 1]), Last(content))
  }

  function MessageParts(content: Content): seq<Part> {
    match content
    case NoContent => []
    case StringContent(value) => if value != "" then [Text(value)] else []
    case PartsContent(parts) => PartsOf(parts)
  }

  /** `messageParts`, one content part after another. */
  method ComputeMessageParts(content: Content) returns (parts: seq<Part>)
    ensures parts == MessageParts(content)
  {
    match content {
      case NoContent => return [];
      case StringContent(value) => return if value != "" then [Text(value)] else [];
      case PartsContent(pieces) =>
        parts := [];
        var k := 0;
        while k < |pieces|
          invariant 0 <= k <= |pieces|
          invariant parts == PartsOf(pieces[..k])
        {
          assert pieces[..k + 1][..k] == pieces[..k];
          match pieces[k] {
            case PlainString(value) => parts := AppendProse(parts, Text(value), "");
            case ToolCall(id, name, arguments) =>
              if name.Some? {
                parts := parts + [Tool(if id.Some? then id.value else "", name.value, arguments, None, false)];
              }
            case ThinkingBlock(thinking) =>
              if thinking.Some? {
                parts := AppendProse(parts, Thinking(thinking.value), BLANK_LINE);
              }
            case TextBlock(text) =>
              if text.Some? {
                parts := AppendProse(parts, Text(text.value), "");
              }
            case OtherPart =>
          }
          k := k + 1;
        }
        assert pieces[..k] == pieces;
    }
  }

  function TextOfPart(part: ContentPart): string {
    match part
    case PlainString(value) => value
    case TextBlock(text) => if text.Some? then text.value else ""
    case _ => ""
  }

  function TextOfContent(content: seq<ContentPart>): string {
    if content == [] then "" else TextOfContent(content[..|content| - 1]) + TextOfPart(Last(content))
  }

  function MessageText(content: Content): string {
    match content
    case NoContent => ""
    case StringContent(value) => value
    case PartsContent(parts) => TextOfContent(parts)
  }

  // ----- joining turns

  /** Reasoning that ran across a message boundary is one piece. */
  function MergeTurnParts(previous: seq<Part>, next: seq<Part>): seq<Part> {
    if next != [] && next[0].Thinking? then AppendProse(previous, next[0], BLANK_LINE) + next[1..]
    else previous + next
  }

  function JoinTexts(parts: seq<Part>): string {
    if parts == [] then ""
    else if Last(parts).Text? then
      var before := JoinTexts(parts[..|parts| - 1]);
      if exists part :: part in parts[..|parts| - 1] && part.Text? then before + BLANK_LINE + Last(parts).value
      else Last(parts).value
    else JoinTexts(parts[..|parts| - 1])
  }

  /** The last result that was reported for a call. */
  function LastResult(messages: seq<Message>, id: string): Option<Result> {
    if messages == [] then None
    else if Last(messages).role == ToolResult && Last(messages).toolCallId == Some(id) then
      Some(Result(MessageText(Last(messages).content), Last(messages).isError))
    else LastResult(messages[..|messages| - 1], id)
  }

  function Fill(all: seq<Message>, part: Part): Part {
    if part.Tool? && LastResult(all, part.id).Some? then
      part.(result := Some(LastResult(all, part.id).value.text), failed := LastResult(all, part.id).value.failed)
    else part
  }

  function FillAll(all: seq<Message>, parts: seq<Part>): (r: seq<Part>)
    ensures |r| == |parts| && forall i :: 0 <= i < |r| ==> r[i] == Fill(all, parts[i])
  {
    seq(|parts|, i requires 0 <= i < |parts| => Fill(all, parts[i]))
  }

  /** The parts a message shows. A user message is prose and nothing else. */
  function ShownParts(all: seq<Message>, message: Message): seq<Part> {
    match message.role
    case Assistant => FillAll(all, MessageParts(message.content))
    case User => Filter((part: Part) => part.Text?, MessageParts(message.content))
    case CompactionSummary =>
      var text := SummaryText(message);
      if text != "" then [Text(text)] else []
    case Custom => [Text(MessageText(message.content))]
    case _ => []
  }

  function SummaryText(message: Message): string {
    if message.summary.Some? then message.summary.value else MessageText(message.content)
  }

  /** Whether the transcript shows anything of a message. */
  predicate Visible(all: seq<Message>, message: Message) {
    match message.role
    case Assistant => ShownParts(all, message) != [] || message.aborted
    case User => ShownParts(all, message) != []
    case CompactionSummary => true
    case Custom => message.display && MessageText(message.content) != ""
    case _ => false
  }

  /** The turn of a message on its own. */
  function OwnTurn(all: seq<Message>, message: Message): Turn {
    var parts := ShownParts(all, message);
    match message.role
    case CompactionSummary => Turn(CompactionSummary, SummaryText(message), parts, false, message.tokensBefore)
    case Custom => Turn(Custom, MessageText(message.content), parts, false, None)
    case _ => Turn(message.role, JoinTexts(parts), parts, message.role == Assistant && message.aborted, None)
  }

  /** One message of the loop. */
  function Push(all: seq<Message>, turns: seq<Turn>, message: Message): seq<Turn> {
    if !Visible(all, message) then turns
    else if message.role != Assistant || turns == [] || Last(turns).role != Assistant then
      turns + [OwnTurn(all, message)]
    else
      var previous := Last(turns);
      var parts := ShownParts(all, message);
      if parts == [] then turns[|turns| - 1 := previous.(stopped := true)]
      else
        var merged := MergeTurnParts(previous.parts, parts);
        turns[|turns| - 1 := Turn(Assistant, JoinTexts(merged), merged, previous.stopped || message.aborted, None)]
  }

  function Project(all: seq<Message>, messages: seq<Message>): seq<Turn> {
    if messages == [] then [] else Push(all, Project(all, messages[..|messages| - 1]), Last(messages))
  }

  /** `projectChatTurns`: a pass that collects the results, and a pass that writes the turns. */
  method ProjectChatTurns(messages: seq<Message>) returns (turns: seq<Turn>)
    ensures turns == Project(messages, messages)
  {
    var results: map<string, Result> := map[];
    var k := 0;
    while k < |messages|
      invariant 0 <= k <= |messages|
      invariant forall id :: LastResult(messages[..k], id) == if id in results then Some(results[id]) else None
    {
      var message := messages[k];
      assert messages[..k + 1][..k] == messages[..k];
      if message.role == ToolResult && message.toolCallId.Some? {
        results := results[message.toolCallId.value := Result(MessageText(message.content), message.isError)];
      }
      k := k + 1;
    }
    assert messages[..k] == messages;
    turns := [];
    k := 0;
    while k < |messages|
      invariant 0 <= k <= |messages|
      invariant turns == Project(messages, messages[..k])
    {
      assert messages[..k + 1][..k] == messages[..k];
      turns := PushMessage(messages, results, turns, messages[k]);
      k := k + 1;
    }
    assert messages[..k] == messages;
  }

  /** The body of the second pass. */
  method PushMessage(ghost all: seq<Message>, results: map<string, Result>, turns: seq<Turn>, message: Message)
    returns (next: seq<Turn>)
    requires forall id :: LastResult(all, id) == if id in results then Some(results[id]) else None
    ensures next == Push(all, turns, message)
  {
    if message.role == ToolResult || message.role == OtherRole {
      return turns;
    }
    if message.role == CompactionSummary {
      var text := SummaryText(message);
      return turns + [Turn(CompactionSummary, text, if text != "" then [Text(text)] else [], false, message.tokensBefore)];
    }
    if message.role == Custom {
      var text := MessageText(message.content);
      if !message.display || text == "" {
        return turns;
      }
      return turns + [Turn(Custom, text, [Text(text)], false, None)];
    }
    var parts := ComputeMessageParts(message.content);
    if message.role == Assistant {
      parts := JoinResults(all, results, parts);
    } else {
      parts := Filter((part: Part) => part.Text?, parts);
    }
    var stopped := message.role == Assistant && message.aborted;
    var continues := turns != [] && Last(turns).role == Assistant;
    if parts == [] {
      if !stopped {
        return turns;
      }
      if continues {
        return turns[|turns| - 1 := Last(turns).(stopped := true)];
      }
      return turns + [Turn(message.role, "", parts, stopped, None)];
    }
    if message.role == Assistant && continues {
      var previous := Last(turns);
      var merged := MergeTurnParts(previous.parts, parts);
      return turns[|turns| - 1 := Turn(Assistant, JoinTexts(merged), merged, previous.stopped || stopped, None)];
    }
    return turns + [Turn(message.role, JoinTexts(parts), parts, stopped, None)];
  }

  method JoinResults(ghost all: seq<Message>, results: map<string, Result>, parts: seq<Part>) returns (r: seq<Part>)
    requires forall id :: LastResult(all, id) == if id in results then Some(results[id]) else None
    ensures r == FillAll(all, parts)
  {
    r := [];
    var k := 0;
    while k < |parts|
      invariant 0 <= k <= |parts| && |r| == k
      invariant forall i :: 0 <= i < k ==> r[i] == Fill(all, parts[i])
    {
      var part := parts[k];
      if part.Tool? && part.id in results {
        part := part.(result := Some(results[part.id].text), failed := results[part.id].failed);
      }
      r := r + [part];
      k := k + 1;
    }
  }

  // ----- turns are maximal runs of visible messages

  function VisibleOf(all: seq<Message>, messages: seq<Message>): seq<Message> {
    Filter((message: Message) => Visible(all, message), messages)
  }

  /** Group a list so that neighbouring assistant messages share a group and all others stand alone. */
  function Runs(messages: seq<Message>): seq<seq<Message>> {
    if messages == [] then []
    else
      var before := Runs(messages[..|messages| - 1]);
      var last := Last(messages);
      if last.role == Assistant && |messages| > 1 && messages[|messages| - 2].role == Assistant && before != []
      then before[|before| - 1 := Last(before) + [last]]
      else before + [[last]]
  }

  /** The parts of a group: those of its messages, joined in order. */
  function RunParts(all: seq<Message>, run: seq<Message>): seq<Part> {
    if run == [] then [] else MergeTurnParts(RunParts(all, run[..|run| - 1]), ShownParts(all, Last(run)))
  }

  /** What the transcript shows for a group, said without reference to the loop. */
  ghost predicate TurnShows(all: seq<Message>, turn: Turn, run: seq<Message>) {
    && run != [] && turn.role == run[0].role
    && (if turn.role == Assistant then
          && (forall m :: m in run ==> m.role == Assistant)
          && turn.parts == RunParts(all, run) && turn.text == JoinTexts(turn.parts)
          && (turn.stopped <==> exists m :: m in run && m.aborted)
          && turn.tokensBefore.None?
        else run == [run[0]] && turn == OwnTurn(all, run[0]))
  }

  ghost predicate TurnsShow(all: seq<Message>, turns: seq<Turn>, runs: seq<seq<Message>>) {
    |turns| == |runs| && forall i :: 0 <= i < |turns| ==> TurnShows(all, turns[i], runs[i])
  }

  lemma {:induction false} FilterLast(all: seq<Message>, messages: seq<Message>)
    requires messages != []
    ensures VisibleOf(all, messages)
         == VisibleOf(all, messages[..|messages| - 1]) + (if Visible(all, Last(messages)) then [Last(messages)] else [])
  {
    if |messages| > 1 {
      var tail := messages[1..];
      FilterLast(all, tail);
      assert messages[..|messages| - 1][1..] == tail[..|tail| - 1];
      assert messages[..|messages| - 1][0] == messages[0];
    } else {
      assert messages[1..] == [];
    }
  }

  /** The last group ends in the last message. */
  lemma {:induction false} LastRun(messages: seq<Message>)
    requires messages != []
    ensures Runs(messages) != [] && Last(Runs(messages)) != [] && Last(Last(Runs(messages))) == Last(messages)
    ensures forall m :: m in Last(Runs(messages)) && |Last(Runs(messages))| > 1 ==> m.role == Assistant
  {
    if |messages| > 1 {
      LastRun(messages[..|messages| - 1]);
    }
  }

  lemma PartsFromNothing(all: seq<Message>, message: Message)
    requires message.role == Assistant
    ensures MergeTurnParts([], ShownParts(all, message)) == ShownParts(all, message)
  {
    if ShownParts(all, message) != [] && ShownParts(all, message)[0].Thinking? {
      ShownHead(all, message);
    }
    MergeFromNothing(ShownParts(all, message));
  }

  lemma MergeFromNothing(parts: seq<Part>)
    requires parts != [] && parts[0].Thinking? ==> parts[0].value != ""
    ensures MergeTurnParts([], parts) == parts
  {
    if parts != [] && parts[0].Thinking? {
      assert AppendProse([], parts[0], BLANK_LINE) == [parts[0]];
    }
  }

  lemma ShownHead(all: seq<Message>, message: Message)
    requires message.role == Assistant && ShownParts(all, message) != [] && ShownParts(all, message)[0].Thinking?
    ensures ShownParts(all, message)[0].value != ""
  {
    ProseNotEmpty(message.content);
    var own := MessageParts(message.content)[0];
    assert own in MessageParts(message.content);
    assert ShownParts(all, message)[0] == Fill(all, own);
  }

  /** Parts of prose are never empty. */
  lemma ProseNotEmpty(content: Content)
    ensures forall part :: part in MessageParts(content) && !part.Tool? ==> part.value != ""
  {
    if content.PartsContent? {
      ProseNotEmptyIn(content.parts);
    }
  }

  lemma {:induction false} ProseNotEmptyIn(content: seq<ContentPart>)
    ensures forall part :: part in PartsOf(content) && !part.Tool? ==> part.value != ""
  {
    if content != [] {
      ProseNotEmptyIn(content[..|content| - 1]);
    }
  }

  /** The loop writes, for every maximal run of visible messages, the one turn that shows it. */
  lemma {:induction false} TurnsAreRuns(all: seq<Message>, messages: seq<Message>)
    ensures TurnsShow(all, Project(all, messages), Runs(VisibleOf(all, messages)))
  {
    if messages != [] {
      var front := messages[..|messages| - 1];
      TurnsAreRuns(all, front);
      FilterLast(all, messages);
      StepShows(all, Project(all, front), VisibleOf(all, front), Last(messages));
    }
  }

  lemma StepShows(all: seq<Message>, turns: seq<Turn>, visible: seq<Message>, message: Message)
    requires TurnsShow(all, turns, Runs(visible))
    ensures TurnsShow(all, Push(all, turns, message),
                      Runs(visible + (if Visible(all, message) then [message] else [])))
  {
    if Visible(all, message) {
      PushShows(all, turns, visible, message);
    } else {
      assert visible + [] == visible;
    }
  }

  lemma PushShows(all: seq<Message>, turns: seq<Turn>, visible: seq<Message>, message: Message)
    requires Visible(all, message) && TurnsShow(all, turns, Runs(visible))
    ensures TurnsShow(all, Push(all, turns, message), Runs(visible + [message]))
  {
    var longer := visible + [message];
    assert longer[..|visible|] == visible && Last(longer) == message;
    if visible != [] {
      LastRun(visible);
      assert longer[|longer| - 2] == Last(visible);
      LastTurnRole(all, turns, visible);
    }
    if message.role == Assistant && visible != [] && Last(visible).role == Assistant {
      ExtendShows(all, Last(turns), Last(Runs(visible)), message);
    } else {
      OwnShows(all, message);
    }
  }

  lemma LastTurnRole(all: seq<Message>, turns: seq<Turn>, visible: seq<Message>)
    requires visible != [] && TurnsShow(all, turns, Runs(visible))
    ensures turns != [] && (Last(turns).role == Assistant <==> Last(visible).role == Assistant)
  {
    LastRun(visible);
    var run := Last(Runs(visible));
    assert TurnShows(all, Last(turns), run);
    assert Last(run) in run && run[0] in run;
  }

  lemma OwnShows(all: seq<Message>, message: Message)
    requires Visible(all, message)
    ensures TurnShows(all, OwnTurn(all, message), [message])
  {
    if message.role == Assistant {
      PartsFromNothing(all, message);
      assert [message][..0] == [];
    }
  }

  lemma ExtendShows(all: seq<Message>, turn: Turn, run: seq<Message>, message: Message)
    requires TurnShows(all, turn, run) && turn.role == Assistant && message.role == Assistant
    ensures var parts := ShownParts(all, message);
            var merged := MergeTurnParts(turn.parts, parts);
            && TurnShows(all, Turn(Assistant, JoinTexts(merged), merged, turn.stopped || message.aborted, None), run + [message])
            && (parts == [] ==> merged == turn.parts)
  {
    var longer := run + [message];
    assert longer[..|run|] == run && Last(longer) == message && longer[0] == run[0];
    assert forall m :: m in longer <==> m in run || m == message;
  }

  // ----- consequences

  /** No two assistant turns stand side by side. */
  lemma {:induction false} NoAdjacentAssistants(all: seq<Message>, messages: seq<Message>)
    ensures forall i :: 0 <= i < |Project(all, messages)| - 1 ==>
              !(Project(all, messages)[i].role == Assistant && Project(all, messages)[i + 1].role == Assistant)
  {
    if messages != [] {
      NoAdjacentAssistants(all, messages[..|messages| - 1]);
    }
  }

  function Tools(parts: seq<Part>): seq<Part> {
    if parts == [] then [] else Tools(parts[..|parts| - 1]) + (if Last(parts).Tool? then [Last(parts)] else [])
  }

  function Prose(parts: seq<Part>): string {
    if parts == [] then "" else Prose(parts[..|parts| - 1]) + (if Last(parts).Text? then Last(parts).value else "")
  }

  /** The call a content part asks for, with its last result. */
  function CallOf(all: seq<Message>, part: ContentPart): seq<Part> {
    FillAll(all, BareCall(part))
  }

  function CallsOf(all: seq<Message>, content: seq<ContentPart>): seq<Part> {
    if content == [] then [] else CallsOf(all, content[..|content| - 1]) + CallOf(all, Last(content))
  }

  function MessageCalls(all: seq<Message>, message: Message): seq<Part> {
    if message.content.PartsContent? then CallsOf(all, message.content.parts) else []
  }

  /** Every assistant message's calls and text, end to end. */
  function AssistantCalls(all: seq<Message>, messages: seq<Message>): seq<Part> {
    if messages == [] then []
    else AssistantCalls(all, messages[..|messages| - 1])
         + (if Last(messages).role == Assistant then MessageCalls(all, Last(messages)) else [])
  }

  function AssistantText(messages: seq<Message>): string {
    if messages == [] then ""
    else AssistantText(messages[..|messages| - 1])
         + (if Last(messages).role == Assistant then MessageText(Last(messages).content) else "")
  }

  function TurnTools(turns: seq<Turn>): seq<Part> {
    if turns == [] then []
    else TurnTools(turns[..|turns| - 1]) + (if Last(turns).role == Assistant then Tools(Last(turns).parts) else [])
  }

  function TurnProse(turns: seq<Turn>): string {
    if turns == [] then ""
    else TurnProse(turns[..|turns| - 1]) + (if Last(turns).role == Assistant then Prose(Last(turns).parts) else "")
  }

  lemma ToolsOfPush(parts: seq<Part>, part: Part)
    ensures Tools(parts + [part]) == Tools(parts) + (if part.Tool? then [part] else [])
    ensures Prose(parts + [part]) == Prose(parts) + (if part.Text? then part.value else "")
  {
    assert (parts + [part])[..|parts|] == parts;
  }

  lemma {:induction false} ToolsOfConcat(a: seq<Part>, b: seq<Part>)
    ensures Tools(a + b) == Tools(a) + Tools(b)
  {
    if b == [] {
      assert a + b == a;
    } else {
      var front := b[..|b| - 1];
      ToolsOfConcat(a, front);
      ToolsOfPush(a + front, Last(b));
      assert a + b == a + front + [Last(b)];
    }
  }

  lemma {:induction false} ProseOfConcat(a: seq<Part>, b: seq<Part>)
    ensures Prose(a + b) == Prose(a) + Prose(b)
  {
    if b == [] {
      assert a + b == a;
    } else {
      var front := b[..|b| - 1];
      ProseOfConcat(a, front);
      ToolsOfPush(a + front, Last(b));
      assert a + b == a + front + [Last(b)];
    }
  }

  lemma AppendProseKeeps(parts: seq<Part>, chunk: Part, separator: string)
    requires !chunk.Tool?
    ensures Tools(AppendProse(parts, chunk, separator)) == Tools(parts)
    ensures (chunk.Text? ==> separator == "") ==>
      Prose(AppendProse(parts, chunk, separator)) == Prose(parts) + (if chunk.Text? then chunk.value else "")
  {
    if chunk.value == "" {
    } else if parts != [] && SameProse(Last(parts), chunk) {
      var r := AppendProse(parts, chunk, separator);
      assert r[..|r| - 1] == parts[..|parts| - 1];
    } else {
      ToolsOfPush(parts, chunk);
    }
  }

  /** A leading piece of reasoning holds neither calls nor text. */
  lemma ThinkingHead(parts: seq<Part>)
    requires parts != [] && parts[0].Thinking?
    ensures Tools(parts) == Tools(parts[1..]) && Prose(parts) == Prose(parts[1..])
  {
    var head := [parts[0]];
    assert parts == head + parts[1..];
    ToolsOfPush([], parts[0]);
    assert [] + head == head;
    ToolsOfConcat(head, parts[1..]);
    ProseOfConcat(head, parts[1..]);
  }

  lemma MergeKeeps(previous: seq<Part>, next: seq<Part>)
    ensures Tools(MergeTurnParts(previous, next)) == Tools(previous) + Tools(next)
    ensures Prose(MergeTurnParts(previous, next)) == Prose(previous) + Prose(next)
  {
    if next != [] && next[0].Thinking? {
      var joined := AppendProse(previous, next[0], BLANK_LINE);
      AppendProseKeeps(previous, next[0], BLANK_LINE);
      ThinkingHead(next);
      ToolsOfConcat(joined, next[1..]);
      ProseOfConcat(joined, next[1..]);
    } else {
      ToolsOfConcat(previous, next);
      ProseOfConcat(previous, next);
    }
  }

  lemma {:induction false} FillKeeps(all: seq<Message>, parts: seq<Part>)
    ensures Prose(FillAll(all, parts)) == Prose(parts)
    ensures Tools(FillAll(all, parts)) == FillAll(all, Tools(parts))
  {
    if parts != [] {
      var front := parts[..|parts| - 1];
      FillKeeps(all, front);
      assert FillAll(all, parts)[..|parts| - 1] == FillAll(all, front);
      assert FillAll(all, Tools(parts))
          == FillAll(all, Tools(front)) + (if Last(parts).Tool? then [Fill(all, Last(parts))] else []);
    }
  }

  lemma AppendPartProse(parts: seq<Part>, part: ContentPart)
    ensures Prose(AppendPart(parts, part)) == Prose(parts) + TextOfPart(part)
  {
    match part {
      case PlainString(value) => AppendProseKeeps(parts, Text(value), "");
      case ToolCall(id, name, arguments) =>
        if name.Some? {
          ToolsOfPush(parts, Tool(if id.Some? then id.value else "", name.value, arguments, None, false));
        }
      case ThinkingBlock(thinking) =>
        if thinking.Some? {
          AppendProseKeeps(parts, Thinking(thinking.value), BLANK_LINE);
        }
      case TextBlock(text) =>
        if text.Some? {
          AppendProseKeeps(parts, Text(text.value), "");
        }
      case OtherPart =>
    }
  }

  /** The call as it is first pushed, without a result. */
  function BareCall(part: ContentPart): seq<Part> {
    if part.ToolCall? && part.name.Some? then
      [Tool(if part.callId.Some? then part.callId.value else "", part.name.value, part.arguments, None, false)]
    else []
  }

  lemma AppendPartTools(parts: seq<Part>, part: ContentPart)
    ensures Tools(AppendPart(parts, part)) == Tools(parts) + BareCall(part)
  {
    match part {
      case PlainString(value) => AppendProseKeeps(parts, Text(value), "");
      case ToolCall(id, name, arguments) =>
        if name.Some? {
          ToolsOfPush(parts, BareCall(part)[0]);
        }
      case ThinkingBlock(thinking) =>
        if thinking.Some? {
          AppendProseKeeps(parts, Thinking(thinking.value), BLANK_LINE);
        }
      case TextBlock(text) =>
        if text.Some? {
          AppendProseKeeps(parts, Text(text.value), "");
        }
      case OtherPart =>
    }
  }

  lemma FillAllConcat(all: seq<Message>, a: seq<Part>, b: seq<Part>)
    ensures FillAll(all, a + b) == FillAll(all, a) + FillAll(all, b)
  {
  }

  lemma {:induction false} PartsConserve(all: seq<Message>, content: seq<ContentPart>)
    ensures Prose(PartsOf(content)) == TextOfContent(content)
    ensures FillAll(all, Tools(PartsOf(content))) == CallsOf(all, content)
  {
    if content != [] {
      PartsConserve(all, content[..|content| - 1]);
      AppendPartProse(PartsOf(content[..|content| - 1]), Last(content));
      AppendPartTools(PartsOf(content[..|content| - 1]), Last(content));
      FillAllConcat(all, Tools(PartsOf(content[..|content| - 1])), BareCall(Last(content)));
    }
  }

  /** The parts an assistant message shows hold exactly its calls and its text. */
  lemma ShownConserve(all: seq<Message>, message: Message)
    requires message.role == Assistant
    ensures Tools(ShownParts(all, message)) == MessageCalls(all, message)
    ensures Prose(ShownParts(all, message)) == MessageText(message.content)
  {
    FillKeeps(all, MessageParts(message.content));
    match message.content {
      case NoContent =>
      case StringContent(value) =>
        if value != "" {
          ToolsOfPush([], Text(value));
        }
      case PartsContent(parts) => PartsConserve(all, parts);
    }
  }

  /** Nothing is lost and nothing is invented: the assistant turns, end to end, hold every tool call
      of every assistant message in order, with the last result for its id, and all of their text. */
  lemma {:induction false} ContentConserved(all: seq<Message>, messages: seq<Message>)
    ensures TurnTools(Project(all, messages)) == AssistantCalls(all, messages)
    ensures TurnProse(Project(all, messages)) == AssistantText(messages)
  {
    if messages != [] {
      var front := messages[..|messages| - 1];
      ContentConserved(all, front);
      PushConserves(all, Project(all, front), Last(messages));
    }
  }

  lemma PushConserves(all: seq<Message>, turns: seq<Turn>, message: Message)
    ensures var assistant := message.role == Assistant;
            && TurnTools(Push(all, turns, message)) == TurnTools(turns) + (if assistant then MessageCalls(all, message) else [])
            && TurnProse(Push(all, turns, message)) == TurnProse(turns) + (if assistant then MessageText(message.content) else "")
  {
    if message.role == Assistant {
      ShownConserve(all, message);
    }
    if !Visible(all, message) {
    } else if message.role != Assistant || turns == [] || Last(turns).role != Assistant {
      AppendTurn(turns, OwnTurn(all, message));
    } else {
      var previous := Last(turns);
      var parts := ShownParts(all, message);
      var merged := MergeTurnParts(previous.parts, parts);
      MergeKeeps(previous.parts, parts);
      ReplaceTurn(turns, Last(Push(all, turns, message)), Tools(parts), Prose(parts));
    }
  }

  lemma AppendTurn(turns: seq<Turn>, turn: Turn)
    ensures TurnTools(turns + [turn]) == TurnTools(turns) + (if turn.role == Assistant then Tools(turn.parts) else [])
    ensures TurnProse(turns + [turn]) == TurnProse(turns) + (if turn.role == Assistant then Prose(turn.parts) else "")
  {
    assert (turns + [turn])[..|turns|] == turns;
  }

  /** The last turn is written again with more calls and text at its end. */
  lemma ReplaceTurn(turns: seq<Turn>, turn: Turn, tools: seq<Part>, prose: string)
    requires turns != [] && Last(turns).role == Assistant && turn.role == Assistant
    requires Tools(turn.parts) == Tools(Last(turns).parts) + tools && Prose(turn.parts) == Prose(Last(turns).parts) + prose
    ensures TurnTools(turns[|turns| - 1 := turn]) == TurnTools(turns) + tools
    ensures TurnProse(turns[|turns| - 1 := turn]) == TurnProse(turns) + prose
  {
    var front := turns[..|turns| - 1];
    assert turns[|turns| - 1 := turn] == front + [turn];
    AppendTurn(front, turn);
    ConcatAssociative(TurnTools(front), Tools(Last(turns).parts), tools);
    ConcatAssociative(TurnProse(front), Prose(Last(turns).parts), prose);
  }

  lemma ConcatAssociative<T>(a: seq<T>, b: seq<T>, c: seq<T>)
    ensures (a + b) + c == a + (b + c)
  {
  }
}
