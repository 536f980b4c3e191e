/** The parts of the turns, from the content of the messages alone: what is one piece of reasoning, what
    is one piece of text, and where they stand. */
module ChatTurnParts {
  import opened Wrappers
  import opened ChatTurns

  // ----- the pieces that are written

  /** What a content part shows: nothing if it is empty, unnamed or of another kind. */
  function PieceOf(part: ContentPart): Option<Part> {
    match part
    case PlainString(value) => if value == "" then None else Some(Text(value))
    case TextBlock(text) => if text.None? || text.value == "" then None else Some(Text(text.value))
    case ThinkingBlock(thinking) => if thinking.None? || thinking.value == "" then None else Some(Thinking(thinking.value))
    case ToolCall(id, name, arguments) =>
      if name.None? then None
      else Some(Tool(if id.Some? then id.value else "", name.value, arguments, None, false))
    case OtherPart => None
  }

  function PiecesIn(content: seq<ContentPart>): seq<Part> {
    if content == [] then []
    else
      var before := PiecesIn(content[..|content| - 1]);
      if PieceOf(Last(content)).Some? then before + [PieceOf(Last(content)).value] else before
  }

  function Pieces(content: Content): seq<Part> {
    match content
    case NoContent => []
    case StringContent(value) => if value == "" then [] else [Text(value)]
    case PartsContent(parts) => PiecesIn(parts)
  }

  /** A piece and the number of the message it comes from. */
  datatype Piece = Piece(part: Part, message: nat)

  function Numbered(parts: seq<Part>, message: nat): (r: seq<Piece>)
    ensures |r| == |parts| && forall i :: 0 <= i < |r| ==> r[i] == Piece(parts[i], message)
  {
    seq(|parts|, i requires 0 <= i < |parts| => Piece(parts[i], message))
  }

  /** The pieces of a run of messages, end to end. */
  function RunPieces(run: seq<Message>): seq<Piece> {
    if run == [] then [] else RunPieces(run[..|run| - 1]) + Numbered(Pieces(Last(run).content), |run| - 1)
  }

  // ----- which pieces are one part

  /** Neighbours share a part if both are reasoning, or both are text of the same message. */
  predicate Together(a: Piece, b: Piece) {
    || (a.part.Thinking? && b.part.Thinking?)
    || (a.part.Text? && b.part.Text? && a.message == b.message)
  }

  function Groups(pieces: seq<Piece>): seq<seq<Piece>> {
    if pieces == [] then []
    else
      var before := Groups(pieces[..|pieces| - 1]);
      if |pieces| > 1 && Together(pieces[|pieces| - 2], Last(pieces)) && before != []
      then before[|before| - 1 := Last(before) + [Last(pieces)]]
      else before + [[Last(pieces)]]
  }

  function Flat<T>(groups: seq<seq<T>>): seq<T> {
    if groups == [] then [] else Flat(groups[..|groups| - 1]) + Last(groups)
  }

  /** No group is empty, neighbours in a group belong together, and neighbours across groups do not. */
  ghost predicate Parted(groups: seq<seq<Piece>>) {
    && (forall g :: 0 <= g < |groups| ==> groups[g] != [] && AllTogether(groups[g]))
    && (forall g {:trigger groups[g]} :: 0 < g < |groups| ==> !SeamTogether(groups[g - 1], groups[g]))
  }

  ghost predicate AllTogether(group: seq<Piece>) {
    forall i :: 0 < i < |group| ==> Together(group[i - 1], group[i])
  }

  /** Pieces of reasoning are joined with a blank line between them, pieces of text without. */
  function JoinPart(a: Part, b: Part): Part {
    if a.Thinking? && b.Thinking? then Thinking(a.value + BLANK_LINE + b.value)
    else if a.Text? && b.Text? then Text(a.value + b.value)
    else b
  }

  function Joined(group: seq<Piece>): Part
    requires group != []
  {
    if |group| == 1 then group[0].part else JoinPart(Joined(group[..|group| - 1]), Last(group).part)
  }

  predicate NoneIsEmpty(groups: seq<seq<Piece>>) {
    forall g :: 0 <= g < |groups| ==> groups[g] != []
  }

  function JoinAll(groups: seq<seq<Piece>>): (r: seq<Part>)
    requires NoneIsEmpty(groups)
    ensures |r| == |groups| && forall i :: 0 <= i < |r| ==> r[i] == Joined(groups[i])
  {
    seq(|groups|, i requires 0 <= i < |groups| => Joined(groups[i]))
  }

  // ----- groups

  lemma {:induction false} GroupsExactly(pieces: seq<Piece>)
    ensures Flat(Groups(pieces)) == pieces && Parted(Groups(pieces))
    ensures pieces != [] ==> Groups(pieces) != [] && Last(Last(Groups(pieces))) == Last(pieces)
  {
    if pieces != [] {
      var front, last := pieces[..|pieces| - 1], Last(pieces);
      GroupsExactly(front);
      assert pieces == front + [last];
      if |pieces| > 1 && Together(pieces[|pieces| - 2], last) {
        assert Last(front) == pieces[|pieces| - 2];
        GroupExtended(Groups(front), last);
      } else {
        assert front != [] ==> Last(front) == pieces[|pieces| - 2];
        GroupAdded(Groups(front), last);
      }
    }
  }

  lemma GroupExtended(groups: seq<seq<Piece>>, piece: Piece)
    requires groups != [] && Parted(groups) && Together(Last(Last(groups)), piece)
    ensures var after := groups[|groups| - 1 := Last(groups) + [piece]];
            Parted(after) && Flat(after) == Flat(groups) + [piece]
  {
    var after := groups[|groups| - 1 := Last(groups) + [piece]];
    ExtendTogether(Last(groups), piece);
    assert after[..|after| - 1] == groups[..|groups| - 1];
  }

  lemma GroupAdded(groups: seq<seq<Piece>>, piece: Piece)
    requires Parted(groups) && (groups != [] ==> !Together(Last(Last(groups)), piece))
    ensures Parted(groups + [[piece]]) && Flat(groups + [[piece]]) == Flat(groups) + [piece]
  {
    assert (groups + [[piece]])[..|groups|] == groups;
  }

  lemma ExtendTogether(group: seq<Piece>, piece: Piece)
    requires group != [] && AllTogether(group) && Together(Last(group), piece)
    ensures AllTogether(group + [piece])
  {
  }

  lemma GroupsPush(pieces: seq<Piece>, piece: Piece)
    ensures var before := Groups(pieces);
            Groups(pieces + [piece]) ==
              if pieces != [] && before != [] && Together(Last(pieces), piece)
              then before[|before| - 1 := Last(before) + [piece]] else before + [[piece]]
  {
    assert (pieces + [piece])[..|pieces|] == pieces;
    assert pieces != [] ==> (pieces + [piece])[|pieces| - 1] == Last(pieces);
  }

  /** Groups of two lists, end to end: the two at the seam are one if the pieces there belong together. */
  function SeamJoined(a: seq<seq<Piece>>, b: seq<seq<Piece>>, together: bool): seq<seq<Piece>> {
    if together && a != [] && b != [] then a[..|a| - 1] + [Last(a) + b[0]] + b[1..] else a + b
  }

  ghost predicate SeamTogether(a: seq<Piece>, b: seq<Piece>) {
    a != [] && b != [] && Together(Last(a), b[0])
  }

  lemma {:induction false} GroupsConcat(a: seq<Piece>, b: seq<Piece>)
    ensures Groups(a + b) == SeamJoined(Groups(a), Groups(b), SeamTogether(a, b))
  {
    if b == [] {
      assert a + b == a;
    } else if |b| == 1 {
      assert b == [b[0]];
      GroupsExactly(a);
      GroupsPush(a, b[0]);
      GroupsPush([], b[0]);
      assert [] + [b[0]] == b;
    } else {
      var front, last := b[..|b| - 1], Last(b);
      GroupsConcat(a, front);
      assert a + b == a + front + [last] && b == front + [last];
      GroupsExactly(front);
      GroupsExactly(a);
      ConcatStep(a, front, last);
    }
  }

  lemma ConcatStep(a: seq<Piece>, front: seq<Piece>, last: Piece)
    requires front != [] && Groups(front) != [] && (a != [] ==> Groups(a) != [])
    requires Groups(a + front) == SeamJoined(Groups(a), Groups(front), SeamTogether(a, front))
    ensures Groups(a + front + [last]) == SeamJoined(Groups(a), Groups(front + [last]), SeamTogether(a, front + [last]))
  {
    GroupsPush(a + front, last);
    GroupsPush(front, last);
    assert Last(a + front) == Last(front);
    SeamPush(Groups(a), Groups(front), SeamTogether(a, front), last, Together(Last(front), last));
  }

  lemma SeamPush(a: seq<seq<Piece>>, b: seq<seq<Piece>>, together: bool, piece: Piece, extend: bool)
    requires b != [] && (together ==> a != [])
    ensures var all := SeamJoined(a, b, together);
            && all != []
            && (if extend then all[|all| - 1 := Last(all) + [piece]] else all + [[piece]])
               == SeamJoined(a, if extend then b[|b| - 1 := Last(b) + [piece]] else b + [[piece]], together)
  {
    var all := SeamJoined(a, b, together);
    if together && extend && |b| == 1 {
      assert Last(a) + (b[0] + [piece]) == Last(a) + b[0] + [piece];
    }
  }

  // ----- joined groups

  ghost predicate NoneEmpty(pieces: seq<Piece>) {
    forall i :: 0 <= i < |pieces| ==> pieces[i].part.Tool? || pieces[i].part.value != ""
  }

  predicate SameKind(a: Part, b: Part) {
    (a.Thinking? <==> b.Thinking?) && (a.Text? <==> b.Text?)
  }

  /** A joined group is of the kind of each of its pieces, and not empty. */
  lemma {:induction false} JoinedKind(group: seq<Piece>)
    requires group != [] && AllTogether(group) && NoneEmpty(group)
    ensures SameKind(Joined(group), Last(group).part) && SameKind(Joined(group), group[0].part)
    ensures !Joined(group).Tool? ==> Joined(group).value != ""
  {
    if |group| > 1 {
      JoinedKind(group[..|group| - 1]);
      assert Together(group[|group| - 2], group[|group| - 1]);
    }
  }

  lemma JoinedPush(group: seq<Piece>, piece: Piece)
    requires group != []
    ensures Joined(group + [piece]) == JoinPart(Joined(group), piece.part)
  {
    assert (group + [piece])[..|group|] == group;
  }

  lemma JoinPartAssociates(a: Part, b: Part, c: Part)
    requires (a.Thinking? && b.Thinking? && c.Thinking?) || (a.Text? && b.Text? && c.Text?)
    ensures JoinPart(a, JoinPart(b, c)) == JoinPart(JoinPart(a, b), c)
  {
  }

  lemma {:induction false} JoinedConcat(a: seq<Piece>, b: seq<Piece>)
    requires a != [] && b != [] && AllTogether(a) && AllTogether(b) && Together(Last(a), b[0])
    requires NoneEmpty(a) && NoneEmpty(b)
    ensures Joined(a + b) == JoinPart(Joined(a), Joined(b))
  {
    if |b| == 1 {
      assert b == [b[0]];
      JoinedPush(a, b[0]);
    } else {
      var front, last := b[..|b| - 1], Last(b);
      JoinedConcat(a, front);
      assert a + b == a + front + [last] && b == front + [last];
      JoinedPush(a + front, last);
      JoinedPush(front, last);
      JoinedKind(a);
      JoinedKind(front);
      assert Together(b[|b| - 2], last);
      JoinPartAssociates(Joined(a), Joined(front), last.part);
    }
  }

  lemma GroupInPieces(pieces: seq<Piece>, g: nat)
    requires NoneEmpty(pieces) && g < |Groups(pieces)|
    ensures NoneEmpty(Groups(pieces)[g])
  {
    GroupsExactly(pieces);
    InFlat(Groups(pieces), g);
    forall i | 0 <= i < |Groups(pieces)[g]|
      ensures Groups(pieces)[g][i].part.Tool? || Groups(pieces)[g][i].part.value != ""
    {
      assert Groups(pieces)[g][i] in Groups(pieces)[g] && Groups(pieces)[g][i] in pieces;
    }
  }

  lemma {:induction false} InFlat<T>(groups: seq<seq<T>>, g: nat)
    requires g < |groups|
    ensures forall x :: x in groups[g] ==> x in Flat(groups)
  {
    if g < |groups| - 1 {
      InFlat(groups[..|groups| - 1], g);
    }
  }

  function PartsFrom(pieces: seq<Piece>): seq<Part> {
    GroupsExactly(pieces);
    JoinAll(Groups(pieces))
  }

  // ----- one message

  /** The loop joins a piece of prose onto a part of its kind. */
  lemma JoinsOnto(groups: seq<seq<Piece>>, piece: Piece, separator: string)
    requires NoneIsEmpty(groups) && groups != [] && !piece.part.Tool? && piece.part.value != ""
    requires separator == if piece.part.Thinking? then BLANK_LINE else ""
    requires SameProse(Joined(Last(groups)), piece.part)
    ensures NoneIsEmpty(groups[|groups| - 1 := Last(groups) + [piece]])
    ensures AppendProse(JoinAll(groups), piece.part, separator) == JoinAll(groups[|groups| - 1 := Last(groups) + [piece]])
  {
    JoinedPush(Last(groups), piece);
    var parts := JoinAll(groups);
    assert Last(parts) == Joined(Last(groups)) && Last(parts).value + "" == Last(parts).value;
    assert AppendProse(parts, piece.part, separator) == parts[|parts| - 1 := JoinPart(Last(parts), piece.part)];
  }

  /** It puts it behind all others if there is none. */
  lemma StandsAlone(groups: seq<seq<Piece>>, piece: Piece, separator: string)
    requires NoneIsEmpty(groups) && !piece.part.Tool? && piece.part.value != ""
    requires groups == [] || !SameProse(Joined(Last(groups)), piece.part)
    ensures NoneIsEmpty(groups + [[piece]])
    ensures AppendProse(JoinAll(groups), piece.part, separator) == JoinAll(groups + [[piece]])
  {
    var parts := JoinAll(groups);
    assert groups != [] ==> Last(parts) == Joined(Last(groups));
    assert JoinAll(groups + [[piece]]) == parts + [piece.part];
  }

  lemma LastKind(pieces: seq<Piece>)
    requires NoneEmpty(pieces) && pieces != []
    ensures NoneIsEmpty(Groups(pieces)) && Groups(pieces) != []
    ensures SameKind(Joined(Last(Groups(pieces))), Last(pieces).part)
    ensures !Joined(Last(Groups(pieces))).Tool? ==> Joined(Last(Groups(pieces))).value != ""
  {
    GroupsExactly(pieces);
    GroupInPieces(pieces, |Groups(pieces)| - 1);
    JoinedKind(Last(Groups(pieces)));
  }

  lemma FrontNoneEmpty(pieces: seq<Piece>, piece: Piece)
    requires NoneEmpty(pieces + [piece])
    ensures NoneEmpty(pieces) && (piece.part.Tool? || piece.part.value != "")
  {
    assert forall i :: 0 <= i < |pieces| ==> (pieces + [piece])[i] == pieces[i];
    assert (pieces + [piece])[|pieces|] == piece;
  }

  /** Pushing a piece of the same message, as the loop over the content does. */
  lemma PushPiece(pieces: seq<Piece>, piece: Piece, separator: string)
    requires NoneEmpty(pieces + [piece]) && !piece.part.Tool?
    requires forall p :: p in pieces ==> p.message == piece.message
    requires separator == if piece.part.Thinking? then BLANK_LINE else ""
    ensures AppendProse(PartsFrom(pieces), piece.part, separator) == PartsFrom(pieces + [piece])
  {
    FrontNoneEmpty(pieces, piece);
    GroupsPush(pieces, piece);
    GroupsExactly(pieces);
    if pieces == [] {
      StandsAlone([], piece, separator);
    } else {
      assert Last(pieces) in pieces;
      LastKind(pieces);
      if Together(Last(pieces), piece) {
        JoinsOnto(Groups(pieces), piece, separator);
      } else {
        StandsAlone(Groups(pieces), piece, separator);
      }
    }
  }

  lemma PushTool(pieces: seq<Piece>, piece: Piece)
    requires piece.part.Tool?
    ensures PartsFrom(pieces) + [piece.part] == PartsFrom(pieces + [piece])
  {
    GroupsPush(pieces, piece);
  }

  lemma NumberedPush(parts: seq<Part>, part: Part, message: nat)
    ensures Numbered(parts + [part], message) == Numbered(parts, message) + [Piece(part, message)]
  {
  }

  lemma {:induction false} PiecesNotEmpty(content: seq<ContentPart>, message: nat)
    ensures NoneEmpty(Numbered(PiecesIn(content), message))
  {
    if content != [] {
      PiecesNotEmpty(content[..|content| - 1], message);
    }
  }

  /** One round of the loop over the content of a message. */
  lemma PartGrouped(before: seq<Part>, part: ContentPart, message: nat)
    requires PieceOf(part).Some? ==> NoneEmpty(Numbered(before + [PieceOf(part).value], message))
    ensures AppendPart(PartsFrom(Numbered(before, message)), part)
         == PartsFrom(Numbered(if PieceOf(part).Some? then before + [PieceOf(part).value] else before, message))
  {
    if PieceOf(part).Some? {
      var piece := Piece(PieceOf(part).value, message);
      NumberedPush(before, piece.part, message);
      if piece.part.Tool? {
        PushTool(Numbered(before, message), piece);
      } else {
        PushPiece(Numbered(before, message), piece, if piece.part.Thinking? then BLANK_LINE else "");
      }
    }
  }

  /** The loop over the content of a message gives its pieces, grouped. */
  lemma {:induction false} ContentGrouped(content: seq<ContentPart>, message: nat)
    ensures PartsOf(content) == PartsFrom(Numbered(PiecesIn(content), message))
  {
    if content != [] {
      var front, last := content[..|content| - 1], Last(content);
      ContentGrouped(front, message);
      PiecesNotEmpty(content, message);
      PartGrouped(PiecesIn(front), last, message);
    }
  }

  /** The parts of a message are its pieces, grouped. */
  lemma MessageGrouped(content: Content, message: nat)
    ensures MessageParts(content) == PartsFrom(Numbered(Pieces(content), message))
    ensures NoneEmpty(Numbered(Pieces(content), message))
  {
    match content {
      case NoContent =>
      case StringContent(value) =>
        if value != "" {
          GroupsPush([], Piece(Text(value), message));
          assert [] + [Piece(Text(value), message)] == Numbered([Text(value)], message);
        }
      case PartsContent(parts) =>
        ContentGrouped(parts, message);
        PiecesNotEmpty(parts, message);
    }
  }

  // ----- a run of messages

  lemma NumbersBelow(run: seq<Message>)
    ensures forall p: Piece :: p in RunPieces(run) ==> p.message < |run|
    ensures NoneEmpty(RunPieces(run))
  {
    if run != [] {
      var front, last := run[..|run| - 1], Last(run);
      NumbersBelow(front);
      MessageGrouped(last.content, |front|);
      NoneEmptyConcat(RunPieces(front), Numbered(Pieces(last.content), |front|));
    }
  }

  lemma NoneEmptyConcat(a: seq<Piece>, b: seq<Piece>)
    requires NoneEmpty(a) && NoneEmpty(b)
    ensures NoneEmpty(a + b)
  {
    var both := a + b;
    forall i | 0 <= i < |both|
      ensures both[i].part.Tool? || both[i].part.value != ""
    {
      assert both[i] == if i < |a| then a[i] else b[i - |a|];
    }
  }

  /** Joining the parts of a further message is grouping the pieces of all of them. */
  lemma MergeGrouped(a: seq<Piece>, b: seq<Piece>)
    requires NoneEmpty(a) && NoneEmpty(b)
    requires forall p: Piece, q: Piece :: p in a && q in b ==> p.message != q.message
    ensures MergeTurnParts(PartsFrom(a), PartsFrom(b)) == PartsFrom(a + b)
  {
    GroupsConcat(a, b);
    GroupsExactly(a);
    GroupsExactly(b);
    GroupsExactly(a + b);
    if a != [] && b != [] {
      assert Last(a) in a && b[0] in b;
      HeadKind(b);
      LastKind(a);
      if SeamTogether(a, b) {
        SeamMerged(a, b);
      } else {
        SeamApart(Groups(a), Groups(b), a, b);
      }
    } else if b == [] {
      assert PartsFrom(b) == [] && a + b == a;
    } else {
      HeadKind(b);
      assert PartsFrom(a) == [] && a + b == b;
      MergeFromNothing(PartsFrom(b));
    }
  }

  lemma HeadKind(pieces: seq<Piece>)
    requires NoneEmpty(pieces) && pieces != []
    ensures NoneIsEmpty(Groups(pieces)) && Groups(pieces) != [] && Groups(pieces)[0][0] == pieces[0]
    ensures SameKind(Joined(Groups(pieces)[0]), pieces[0].part)
    ensures !Joined(Groups(pieces)[0]).Tool? ==> Joined(Groups(pieces)[0]).value != ""
  {
    GroupsExactly(pieces);
    FlatHead(Groups(pieces));
    GroupInPieces(pieces, 0);
    JoinedKind(Groups(pieces)[0]);
  }

  lemma {:induction false} FlatHead(groups: seq<seq<Piece>>)
    requires groups != [] && groups[0] != []
    ensures Flat(groups) != [] && Flat(groups)[0] == groups[0][0]
  {
    if |groups| > 1 {
      FlatHead(groups[..|groups| - 1]);
    } else {
      assert Flat(groups[..0]) + groups[0] == groups[0];
    }
  }

  lemma SeamMerged(a: seq<Piece>, b: seq<Piece>)
    requires NoneEmpty(a) && NoneEmpty(b) && SeamTogether(a, b) && a[|a| - 1].message != b[0].message
    requires Groups(a + b) == SeamJoined(Groups(a), Groups(b), true)
    ensures MergeTurnParts(PartsFrom(a), PartsFrom(b)) == PartsFrom(a + b)
  {
    HeadKind(b);
    LastKind(a);
    GroupsExactly(a);
    GroupsExactly(b);
    GroupInPieces(a, |Groups(a)| - 1);
    GroupInPieces(b, 0);
    JoinedConcat(Last(Groups(a)), Groups(b)[0]);
    SeamMergedIn(Groups(a), Groups(b));
  }

  lemma SeamMergedIn(a: seq<seq<Piece>>, b: seq<seq<Piece>>)
    requires a != [] && b != [] && NoneIsEmpty(a) && NoneIsEmpty(b)
    requires Joined(Last(a)).Thinking? && Joined(b[0]).Thinking? && Joined(b[0]).value != ""
    requires Joined(Last(a) + b[0]) == JoinPart(Joined(Last(a)), Joined(b[0]))
    ensures NoneIsEmpty(SeamJoined(a, b, true))
    ensures MergeTurnParts(JoinAll(a), JoinAll(b)) == JoinAll(SeamJoined(a, b, true))
  {
    var previous, next := JoinAll(a), JoinAll(b);
    assert Last(previous) == Joined(Last(a)) && next[0] == Joined(b[0]);
    JoinAllSeam(a, b);
    var merged := JoinPart(Last(previous), next[0]);
    assert AppendProse(previous, next[0], BLANK_LINE) == previous[|previous| - 1 := merged];
    assert previous[|previous| - 1 := merged] == previous[..|previous| - 1] + [merged];
  }

  lemma JoinAllSeam(a: seq<seq<Piece>>, b: seq<seq<Piece>>)
    requires a != [] && b != [] && NoneIsEmpty(a) && NoneIsEmpty(b)
    ensures NoneIsEmpty(SeamJoined(a, b, true))
    ensures JoinAll(SeamJoined(a, b, true))
         == JoinAll(a)[..|a| - 1] + [Joined(Last(a) + b[0])] + JoinAll(b)[1..]
  {
    var all := SeamJoined(a, b, true);
    forall g | 0 <= g < |all|
      ensures all[g] == if g < |a| - 1 then a[g] else if g == |a| - 1 then Last(a) + b[0] else b[g - |a| + 1]
    {
    }
  }

  lemma SeamApart(ga: seq<seq<Piece>>, gb: seq<seq<Piece>>, a: seq<Piece>, b: seq<Piece>)
    requires a != [] && b != [] && !SeamTogether(a, b) && Last(a).message != b[0].message
    requires ga != [] && gb != [] && NoneIsEmpty(ga) && NoneIsEmpty(gb)
    requires SameKind(Joined(Last(ga)), Last(a).part) && SameKind(Joined(gb[0]), b[0].part)
    requires !Joined(gb[0]).Tool? ==> Joined(gb[0]).value != ""
    ensures NoneIsEmpty(ga + gb)
    ensures MergeTurnParts(JoinAll(ga), JoinAll(gb)) == JoinAll(ga + gb)
  {
    var previous, next := JoinAll(ga), JoinAll(gb);
    assert JoinAll(ga + gb) == previous + next;
    if next[0].Thinking? {
      assert AppendProse(previous, next[0], BLANK_LINE) == previous + [next[0]];
      assert previous + [next[0]] + next[1..] == previous + next;
    }
  }

  lemma FillMerges(all: seq<Message>, previous: seq<Part>, next: seq<Part>)
    ensures MergeTurnParts(FillAll(all, previous), FillAll(all, next)) == FillAll(all, MergeTurnParts(previous, next))
  {
    var a, b := FillAll(all, previous), FillAll(all, next);
    if next != [] && next[0].Thinking? {
      assert b[0] == next[0];
      FillAppends(all, previous, next[0]);
      assert b[1..] == FillAll(all, next[1..]);
      FillAllConcat(all, AppendProse(previous, next[0], BLANK_LINE), next[1..]);
    } else {
      FillAllConcat(all, previous, next);
    }
  }

  lemma FillAppends(all: seq<Message>, parts: seq<Part>, chunk: Part)
    requires chunk.Thinking?
    ensures AppendProse(FillAll(all, parts), chunk, BLANK_LINE) == FillAll(all, AppendProse(parts, chunk, BLANK_LINE))
  {
  }

  /** The parts of a run of assistant messages: its pieces, grouped, and the calls with their results. */
  lemma {:induction false} RunGrouped(all: seq<Message>, run: seq<Message>)
    requires forall m :: m in run ==> m.role == Assistant
    ensures RunParts(all, run) == FillAll(all, PartsFrom(RunPieces(run)))
  {
    if run != [] {
      var front, last := run[..|run| - 1], Last(run);
      RunGrouped(all, front);
      NumbersBelow(front);
      MessageGrouped(last.content, |front|);
      var a, b := RunPieces(front), Numbered(Pieces(last.content), |front|);
      MergeGrouped(a, b);
      FillMerges(all, PartsFrom(a), PartsFrom(b));
      assert last in run;
    }
  }

  // ----- the turns

  /** The parts of an assistant turn, from the contents of the messages of its run alone: every piece that
      is not empty, in order. Neighbouring reasoning is one part, with blank lines, also across messages;
      neighbouring text is one part within a message; every call is a part, with its last result. */
  lemma AssistantTurnExactly(all: seq<Message>, messages: seq<Message>, i: nat)
    requires i < |Project(all, messages)| && Project(all, messages)[i].role == Assistant
    ensures var runs := Runs(VisibleOf(all, messages));
            && i < |runs| && (forall m :: m in runs[i] ==> m.role == Assistant)
            && Project(all, messages)[i].parts == FillAll(all, PartsFrom(RunPieces(runs[i])))
            && Flat(Groups(RunPieces(runs[i]))) == RunPieces(runs[i]) && Parted(Groups(RunPieces(runs[i])))
  {
    TurnsAreRuns(all, messages);
    var runs := Runs(VisibleOf(all, messages));
    assert TurnShows(all, Project(all, messages)[i], runs[i]);
    RunGrouped(all, runs[i]);
    GroupsExactly(RunPieces(runs[i]));
  }

  // ----- texts

  function JoinWith(separator: string, texts: seq<string>): string {
    if texts == [] then "" else if |texts| == 1 then texts[0] else texts[0] + separator + JoinWith(separator, texts[1..])
  }

  lemma {:induction false} JoinWithAppended(separator: string, texts: seq<string>, text: string)
    ensures JoinWith(separator, texts + [text])
         == if texts == [] then text else JoinWith(separator, texts) + separator + text
  {
    if texts == [] {
      assert [] + [text] == [text];
    } else {
      JoinWithAppended(separator, texts[1..], text);
      assert (texts + [text])[1..] == texts[1..] + [text];
      if |texts| > 1 {
        var a, b := texts[0], JoinWith(separator, texts[1..]);
        ConcatAssociative(a + separator, b, separator + text);
        ConcatAssociative(b, separator, text);
        ConcatAssociative(a + separator + b, separator, text);
      }
    }
  }

  function Texts(parts: seq<Part>): seq<string> {
    if parts == [] then []
    else
      var before := Texts(parts[..|parts| - 1]);
      if Last(parts).Text? then before + [Last(parts).value] else before
  }

  lemma TextsPush(parts: seq<Part>, part: Part)
    ensures Texts(parts + [part]) == if part.Text? then Texts(parts) + [part.value] else Texts(parts)
  {
    assert (parts + [part])[..|parts|] == parts;
  }

  lemma {:induction false} TextsExist(parts: seq<Part>)
    ensures Texts(parts) != [] <==> exists part :: part in parts && part.Text?
  {
    if parts != [] {
      TextsExist(parts[..|parts| - 1]);
      assert parts == parts[..|parts| - 1] + [Last(parts)];
    }
  }

  /** The text of a turn: the texts of its parts with blank lines between them. */
  lemma {:induction false} TurnTextExactly(parts: seq<Part>)
    ensures JoinTexts(parts) == JoinWith(BLANK_LINE, Texts(parts))
  {
    if parts != [] {
      var front := parts[..|parts| - 1];
      TurnTextExactly(front);
      TextsExist(front);
      if Last(parts).Text? {
        JoinWithAppended(BLANK_LINE, Texts(front), Last(parts).value);
      }
    }
  }

  function Values(group: seq<Piece>): seq<string>
    requires forall i :: 0 <= i < |group| ==> !group[i].part.Tool?
  {
    seq(|group|, i requires 0 <= i < |group| => group[i].part.value)
  }

  /** All pieces are reasoning, or all are text. */
  predicate OneKind(group: seq<Piece>, thinking: bool) {
    forall i :: 0 <= i < |group| ==> if thinking then group[i].part.Thinking? else group[i].part.Text?
  }

  lemma {:induction false} OneKindTogether(group: seq<Piece>)
    requires |group| > 1 && AllTogether(group)
    ensures OneKind(group, group[0].part.Thinking?)
  {
    var front, last := group[..|group| - 1], Last(group);
    assert Together(group[|group| - 2], last);
    if |front| > 1 {
      OneKindTogether(front);
      assert front[|front| - 1] == group[|group| - 2];
    }
    forall i | 0 <= i < |group|
      ensures if group[0].part.Thinking? then group[i].part.Thinking? else group[i].part.Text?
    {
      assert i < |front| ==> front[i] == group[i];
    }
  }

  lemma {:induction false} JoinedValues(group: seq<Piece>, thinking: bool)
    requires group != [] && OneKind(group, thinking)
    ensures Joined(group) == if thinking then Thinking(JoinWith(BLANK_LINE, Values(group)))
                             else Text(JoinWith("", Values(group)))
  {
    if |group| == 1 {
      assert Values(group) == [group[0].part.value];
    } else {
      var front, last := group[..|group| - 1], Last(group);
      JoinedValues(front, thinking);
      assert Values(group) == Values(front) + [last.part.value];
      var before := JoinWith(if thinking then BLANK_LINE else "", Values(front));
      JoinWithAppended(if thinking then BLANK_LINE else "", Values(front), last.part.value);
      assert before + "" == before;
    }
  }

  /** A part of several pieces is their values, with blank lines between them if they are reasoning. */
  lemma JoinedExactly(group: seq<Piece>)
    requires |group| > 1 && AllTogether(group)
    ensures OneKind(group, group[0].part.Thinking?)
    ensures Joined(group) == if group[0].part.Thinking? then Thinking(JoinWith(BLANK_LINE, Values(group)))
                             else Text(JoinWith("", Values(group)))
  {
    OneKindTogether(group);
    JoinedValues(group, group[0].part.Thinking?);
  }

  lemma {:induction false} ContentTextExactly(content: seq<ContentPart>)
    ensures TextOfContent(content) == JoinWith("", Texts(PiecesIn(content)))
  {
    if content != [] {
      var front, last := content[..|content| - 1], Last(content);
      ContentTextExactly(front);
      if PieceOf(last).Some? {
        var pieces, piece := PiecesIn(front), PieceOf(last).value;
        assert (pieces + [piece])[..|pieces|] == pieces;
        assert PiecesIn(content) == pieces + [piece];
        if piece.Text? {
          JoinWithAppended("", Texts(pieces), piece.value);
        }
      } else {
        assert PiecesIn(content) == PiecesIn(front);
      }
    }
  }

  /** The text of a message: its pieces of text, end to end. */
  lemma MessageTextExactly(content: Content)
    ensures MessageText(content) == JoinWith("", Texts(Pieces(content)))
    ensures MessageText(content) != "" <==> exists piece :: piece in Pieces(content) && piece.Text?
  {
    match content {
      case NoContent =>
      case StringContent(value) =>
        if value != "" {
          TextsPush([], Text(value));
          assert [] + [Text(value)] == [Text(value)];
        }
      case PartsContent(parts) => ContentTextExactly(parts);
    }
    TextsExist(Pieces(content));
    PiecesTexts(content);
  }

  lemma PiecesTexts(content: Content)
    ensures Texts(Pieces(content)) != [] <==> JoinWith("", Texts(Pieces(content))) != ""
  {
    MessageGrouped(content, 0);
    var pieces := Pieces(content);
    forall i | 0 <= i < |pieces|
      ensures pieces[i].Tool? || pieces[i].value != ""
    {
      assert Numbered(pieces, 0)[i].part == pieces[i];
    }
    TextsNotEmpty(pieces);
  }

  lemma {:induction false} TextsNotEmpty(parts: seq<Part>)
    requires forall i :: 0 <= i < |parts| ==> parts[i].Tool? || parts[i].value != ""
    ensures Texts(parts) != [] <==> JoinWith("", Texts(parts)) != ""
  {
    if parts != [] {
      var front := parts[..|parts| - 1];
      TextsNotEmpty(front);
      if Last(parts).Text? {
        JoinWithAppended("", Texts(front), Last(parts).value);
      }
    }
  }

  // ----- users, and what is shown at all

  lemma {:induction false} ProseOfTexts(parts: seq<Part>)
    ensures Prose(Filter((part: Part) => part.Text?, parts)) == Prose(parts)
  {
    if parts != [] {
      ProseOfTexts(parts[1..]);
      var head := [parts[0]];
      assert parts == head + parts[1..];
      ProseOfConcat(head, parts[1..]);
      ToolsOfPush([], parts[0]);
      assert [] + head == head;
      var rest := Filter((part: Part) => part.Text?, parts[1..]);
      if parts[0].Text? {
        assert Filter((part: Part) => part.Text?, parts) == head + rest;
        ProseOfConcat(head, rest);
      } else {
        assert Filter((part: Part) => part.Text?, parts) == rest;
      }
    }
  }

  /** A user message shows the text parts among its grouped pieces, which are all of its text. */
  lemma UserShows(all: seq<Message>, message: Message)
    requires message.role == User
    ensures ShownParts(all, message)
         == Filter((part: Part) => part.Text?, PartsFrom(Numbered(Pieces(message.content), 0)))
    ensures Prose(ShownParts(all, message)) == MessageText(message.content)
    ensures ShownParts(all, message) != [] <==> MessageText(message.content) != ""
  {
    MessageGrouped(message.content, 0);
    var parts := MessageParts(message.content);
    ProseOfTexts(parts);
    MessageProse(message.content);
    ProseNotEmpty(message.content);
    TextIsProse(ShownParts(all, message));
  }

  lemma MessageProse(content: Content)
    ensures Prose(MessageParts(content)) == MessageText(content)
  {
    match content {
      case NoContent =>
      case StringContent(value) =>
        if value != "" {
          ToolsOfPush([], Text(value));
        }
      case PartsContent(parts) => PartsConserve([], parts);
    }
  }

  lemma TextIsProse(parts: seq<Part>)
    requires forall part :: part in parts ==> part.Text? && part.value != ""
    ensures parts != [] <==> Prose(parts) != ""
  {
    if parts != [] {
      assert Last(parts) in parts;
    }
  }

  /** What the transcript shows anything of, by the contents alone: an assistant message that says or
      calls or thinks something or was interrupted, a user message and a displayed custom one with text,
      and every compaction. */
  lemma VisibleExactly(all: seq<Message>, message: Message)
    ensures Visible(all, message) <==>
      match message.role
      case Assistant => Pieces(message.content) != [] || message.aborted
      case User => exists piece :: piece in Pieces(message.content) && piece.Text?
      case CompactionSummary => true
      case Custom => message.display && exists piece :: piece in Pieces(message.content) && piece.Text?
      case _ => false
  {
    MessageTextExactly(message.content);
    if message.role == User {
      UserShows(all, message);
    }
    MessageGrouped(message.content, 0);
    GroupsExactly(Numbered(Pieces(message.content), 0));
    assert Pieces(message.content) == [] ==> PartsFrom(Numbered(Pieces(message.content), 0)) == [];
  }

  ghost predicate ReportsOn(message: Message, id: string) {
    message.role == ToolResult && message.toolCallId == Some(id)
  }

  ghost predicate LastReport(messages: seq<Message>, id: string, k: int) {
    0 <= k < |messages| && ReportsOn(messages[k], id) && forall j :: k < j < |messages| ==> !ReportsOn(messages[j], id)
  }

  function ReportOf(message: Message): ChatTurns.Result {
    ChatTurns.Result.Result(JoinWith("", Texts(Pieces(message.content))), message.isError)
  }

  /** The result of a call is the text of the last tool result for its id, wherever it stands. */
  lemma {:induction false} LastResultExactly(messages: seq<Message>, id: string)
    ensures match LastResult(messages, id)
            case None => forall k :: 0 <= k < |messages| ==> !ReportsOn(messages[k], id)
            case Some(result) =>
              exists k :: LastReport(messages, id, k) && result == ReportOf(messages[k])
  {
    if messages != [] {
      MessageTextExactly(Last(messages).content);
    }
    if messages != [] && !ReportsOn(Last(messages), id) {
      var front := messages[..|messages| - 1];
      LastResultExactly(front, id);
      assert forall k :: 0 <= k < |front| ==> front[k] == messages[k];
      if LastResult(front, id).Some? {
        var k :| LastReport(front, id, k) && LastResult(front, id).value == ReportOf(front[k]);
        assert LastReport(messages, id, k);
      }
    } else if messages != [] {
      assert LastReport(messages, id, |messages| - 1);
    }
  }

  /** A call is shown with the text and the error flag of the last tool result for its id; a call without
      one, and everything else, as it was written. */
  lemma FillExactly(all: seq<Message>, part: Part)
    ensures !part.Tool? || (forall k :: 0 <= k < |all| ==> !ReportsOn(all[k], part.id)) ==> Fill(all, part) == part
    ensures part.Tool? ==>
      forall k :: LastReport(all, part.id, k) ==>
        Fill(all, part) == part.(result := Some(ReportOf(all[k]).text), failed := ReportOf(all[k]).failed)
  {
    if part.Tool? {
      LastResultExactly(all, part.id);
      forall j, k | LastReport(all, part.id, j) && LastReport(all, part.id, k)
        ensures j == k
      {
      }
    }
  }

  /** The groups of messages are all visible ones, in order. */
  lemma {:induction false} RunsAreAll(messages: seq<Message>)
    ensures Flat(Runs(messages)) == messages
  {
    if messages != [] {
      var front, last := messages[..|messages| - 1], Last(messages);
      RunsAreAll(front);
      assert messages == front + [last];
      var before, after := Runs(front), Runs(messages);
      if front != [] {
        LastRun(front);
      }
      if after == before + [[last]] {
        assert after[..|after| - 1] == before;
      } else {
        assert after[..|after| - 1] == before[..|before| - 1];
      }
    }
  }

  /** A turn that is not the assistant's shows one message: a user's text parts, a displayed custom
      message's text, or a compaction's summary, or its text if it has none. */
  lemma OtherTurnExactly(all: seq<Message>, messages: seq<Message>, i: nat)
    requires i < |Project(all, messages)| && Project(all, messages)[i].role != Assistant
    ensures var runs := Runs(VisibleOf(all, messages));
            && i < |runs| && |runs[i]| == 1
            && var message, turn := runs[i][0], Project(all, messages)[i];
               var own := JoinWith("", Texts(Pieces(message.content)));
               var summary := if message.summary.Some? then message.summary.value else own;
               && turn.role == message.role && !turn.stopped
               && match message.role
                  case User =>
                    && turn.parts == Filter((part: Part) => part.Text?, PartsFrom(Numbered(Pieces(message.content), 0)))
                    && turn.text == JoinWith(BLANK_LINE, Texts(turn.parts)) && turn.tokensBefore.None?
                  case CompactionSummary =>
                    && turn.text == summary && turn.parts == (if summary == "" then [] else [Text(summary)])
                    && turn.tokensBefore == message.tokensBefore
                  case Custom => turn.text == own && turn.parts == [Text(own)] && turn.tokensBefore.None?
                  case _ => false
  {
    TurnsAreRuns(all, messages);
    var runs := Runs(VisibleOf(all, messages));
    assert TurnShows(all, Project(all, messages)[i], runs[i]);
    var message := runs[i][0];
    assert runs[i] == [message];
    MessageTextExactly(message.content);
    TurnTextExactly(ShownParts(all, message));
    if message.role == User {
      UserShows(all, message);
    }
    RunIsVisible(all, messages, i);
  }

  lemma RunIsVisible(all: seq<Message>, messages: seq<Message>, i: nat)
    requires i < |Runs(VisibleOf(all, messages))|
    ensures forall m :: m in Runs(VisibleOf(all, messages))[i] ==> m in messages && Visible(all, m)
  {
    RunsAreAll(VisibleOf(all, messages));
    InFlat(Runs(VisibleOf(all, messages)), i);
  }
}
