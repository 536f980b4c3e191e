/** The reader and the editor of the profile text agree: reading an edited text gives the edited
    list of entries, so the handlers may reason with entries while they write text. */
module ProfileReading {
  import opened Wrappers
  import opened InstallPlan
  import opened Marketplace
  import opened ProfileText
  import opened ProfileRoundTrip
  import opened Edits

  // ----- around one entry

  lemma NameLineIsNoItem(line: Line)
    requires NameOf(line).Some?
    ensures IdOf(line).None?
  {
    assert line.content[0] == 'n';
  }

  function HeadEntry(idLine: Line, nameLine: Line, rest: seq<Line>): ProfileEntry
    requires IdOf(idLine).Some? && NameOf(nameLine).Some?
  {
    ProfileEntry(IdOf(idLine).value, NameOf(nameLine).value.packageName,
                 NameOf(nameLine).value.closesLine && rest != []
                 && HasKey(rest[0], nameLine.indent, DISABLED_TRUE))
  }

  lemma EntryAtHead(idLine: Line, nameLine: Line, rest: seq<Line>)
    requires IdOf(idLine).Some? && NameOf(nameLine).Some?
    ensures EntryAt([idLine, nameLine] + rest, 0) == Some(HeadEntry(idLine, nameLine, rest))
  {
    var lines := [idLine, nameLine] + rest;
    assert lines[0] == idLine && lines[1] == nameLine;
    assert rest != [] ==> lines[2] == rest[0];
  }

  /** Reading an id line with its name line, and what follows. */
  lemma ReadHead(idLine: Line, nameLine: Line, rest: seq<Line>)
    requires IdOf(idLine).Some? && NameOf(nameLine).Some?
    ensures Read([idLine, nameLine] + rest) == [HeadEntry(idLine, nameLine, rest)] + Read(rest)
  {
    var lines := [idLine, nameLine] + rest;
    EntryAtHead(idLine, nameLine, rest);
    assert lines[1..] == [nameLine] + rest;
    NameLineIsNoItem(nameLine);
    ReadBehind(nameLine, rest);
  }

  /** An item line splits the text for the reader. */
  lemma ReadAtItem(lines: seq<Line>, i: nat)
    requires i < |lines| && IdOf(lines[i]).Some?
    ensures Read(lines) == Read(lines[..i]) + Read(lines[i..])
  {
    ItemIsDetached(lines[i]);
    ReadConcat(lines[..i], lines[i..]);
    Rejoin(lines, i);
  }

  ghost predicate Anchored(lines: seq<Line>, id: string) {
    FindId(lines, id) < |lines| && EntryAt(lines, FindId(lines, id)).Some?
  }

  /** The entry of an id stands where the lines above its id line have been read. */
  lemma PositionOfId(lines: seq<Line>, id: string)
    requires Anchored(lines, id)
    ensures var i := FindId(lines, id);
            && Read(lines) == Read(lines[..i]) + Read(lines[i..])
            && Position(Read(lines), id) == |Read(lines[..i])|
            && Read(lines[i..]) != [] && Read(lines[i..])[0].id == id
  {
    var i := FindId(lines, id);
    Pieces(lines, id);
    ReadAtItem(lines, i);
    ReadIds(lines[..i], id);
    var lower := lines[i..];
    assert lower == [lower[0], lower[1]] + lower[2..];
    ReadHead(lower[0], lower[1], lower[2..]);
    PositionInConcat(Read(lines[..i]), Read(lower), id);
  }

  // ----- append

  /** An entry that is read names its package in the text. */
  lemma {:induction false} ReadIsMentioned(lines: seq<Line>, entry: ProfileEntry)
    requires entry in Read(lines)
    ensures Mentions(lines, entry.packageName)
  {
    if EntryAt(lines, 0) == Some(entry) {
      NameIsMentioned(lines[1]);
      assert Contains(lines[1].content, NAME_KEY + entry.packageName + "\"");
    } else {
      ReadIsMentioned(lines[1..], entry);
      var k :| 0 <= k < |lines[1..]| && Contains(lines[1..][k].content, NAME_KEY + entry.packageName + "\"");
      assert lines[k + 1] == lines[1..][k];
    }
  }

  lemma {:induction false} UpToQuoteShape(s: string)
    ensures UpToQuote(s) <= s && '"' !in UpToQuote(s)
    ensures |UpToQuote(s)| < |s| ==> s[|UpToQuote(s)|] == '"'
  {
    if s != "" && s[0] != '"' {
      UpToQuoteShape(s[1..]);
      assert s == [s[0]] + s[1..];
    }
  }

  lemma NameIsMentioned(line: Line)
    requires NameOf(line).Some?
    ensures Contains(line.content, NAME_KEY + NameOf(line).value.packageName + "\"")
  {
    var rest := line.content[|NAME_KEY|..];
    var packageName := UpToQuote(rest);
    var text := NAME_KEY + packageName + "\"";
    UpToQuoteShape(rest);
    assert line.content == NAME_KEY + rest;
    assert rest[..|packageName| + 1] == packageName + "\"";
    assert line.content[..|text|] == text;
    assert OccursAt(line.content, text, 0);
  }

  /** Appending in front of an anchor is, for the reader, appending in front of its entry. */
  lemma ReadAppended(lines: seq<Line>, plugin: Plugin, printed: Printed, anchor: string)
    requires Printable(plugin) && !Mentions(lines, plugin.packageName) && Anchored(lines, anchor)
    ensures Read(TextAppend(lines, plugin, printed, Some(anchor))) == AppendEntry(Read(lines), plugin, Some(anchor))
  {
    var i := FindId(lines, anchor);
    var e := EntryLines(plugin, printed, lines[i].indent);
    var upper, lower := Read(lines[..i]), Read(lines[i..]);
    PositionOfId(lines, anchor);
    if Configured(Read(lines), plugin.packageName).Some? {
      ReadIsMentioned(lines, Configured(Read(lines), plugin.packageName).value);
    }
    Pieces(lines, anchor);
    ReadSpliced(lines[..i], lines[i..], plugin, printed, lines[i].indent);
    assert (upper + lower)[..|upper|] == upper && (upper + lower)[|upper|..] == lower;
  }

  lemma ReadSpliced(upper: seq<Line>, lower: seq<Line>, plugin: Plugin, printed: Printed, indent: string)
    requires Printable(plugin) && AllBlank(indent) && lower != [] && IdOf(lower[0]).Some?
    ensures Read(upper + EntryLines(plugin, printed, indent) + lower)
         == Read(upper) + [ProfileEntry(EntryId(plugin), plugin.packageName, false)] + Read(lower)
  {
    var e := EntryLines(plugin, printed, indent);
    EntryLinesShape(plugin, printed, indent);
    ReadPrinted(plugin, printed, indent);
    ItemIsDetached(lower[0]);
    ItemIsDetached(e[0]);
    ReadConcat(upper + e, lower);
    ReadConcat(upper, e);
  }

  // ----- remove

  lemma IdAndName(lines: seq<Line>, id: string)
    requires Anchored(lines, id)
    ensures var i := FindId(lines, id);
            i + 1 < |lines| && IdOf(lines[i]) == Some(id) && NameOf(lines[i + 1]).Some?
  {
    Pieces(lines, id);
  }

  /** A removal comes to an end exactly if nothing in the block stands at the left margin, and then it
      is, for the reader, the removal of the one entry exactly if the block holds no other. */
  lemma ReadRemoved(lines: seq<Line>, id: string)
    requires Anchored(lines, id)
    requires var j := BlockEnd(lines, FindId(lines, id) + 1, lines[FindId(lines, id)].indent);
             j < |lines| ==> Detached(lines[j])
    ensures TextRemove(lines, id).Edited? <==> ScanEnds(lines, id)
    ensures HasId(Read(lines), id)
    ensures ScanEnds(lines, id) ==>
      var i := FindId(lines, id);
      (Read(TextRemove(lines, id).text) == RemoveEntry(Read(lines), id) <==>
       |Read(lines[i..BlockEnd(lines, i + 1, lines[i].indent)])| == 1)
  {
    var i := FindId(lines, id);
    var j := BlockEnd(lines, i + 1, lines[i].indent);
    DivergesExactly(lines, id, false);
    BlockRead(lines, id, j);
    RemoveFromConcat(Read(lines[..i]), Read(lines[i..j]), Read(lines[j..]), id);
    if ScanEnds(lines, id) {
      RemoveAt(lines, id, i, j);
      RemovedPieces(lines[..i], lines[j..]);
    }
  }

  /** The text in three pieces for the reader: above the block, the block, and below it. */
  lemma BlockRead(lines: seq<Line>, id: string, j: nat)
    requires Anchored(lines, id) && j == BlockEnd(lines, FindId(lines, id) + 1, lines[FindId(lines, id)].indent)
    requires j < |lines| ==> Detached(lines[j])
    ensures var i := FindId(lines, id);
            && Read(lines) == Read(lines[..i]) + (Read(lines[i..j]) + Read(lines[j..]))
            && Position(Read(lines), id) == |Read(lines[..i])| && Read(lines[i..j]) != []
  {
    var i := FindId(lines, id);
    IdAndName(lines, id);
    PositionOfId(lines, id);
    NameInBlock(lines, i, j);
    ReadConcat(lines[i..j], lines[j..]);
    SplitTail(lines, i, j);
  }

  lemma SplitTail<T>(s: seq<T>, i: nat, j: nat)
    requires i <= j <= |s|
    ensures s[i..] == s[i..j] + s[j..]
  {
  }

  /** A name line below the id line does not end the block, if whatever ends it is detached. */
  lemma NameInBlock(lines: seq<Line>, i: nat, j: nat)
    requires i + 1 < |lines| && IdOf(lines[i]).Some? && NameOf(lines[i + 1]).Some? && i + 1 <= j <= |lines|
    requires j < |lines| ==> Detached(lines[j])
    ensures i + 2 <= j && |Read(lines[i..j])| >= 1
  {
    if j < |lines| {
      DetachedHasNoName(lines[j]);
    }
    var block := lines[i..j];
    assert block == [block[0], block[1]] + block[2..];
    ReadHead(block[0], block[1], block[2..]);
  }

  /** What the removal leaves, read. */
  lemma RemovedPieces(upper: seq<Line>, tail: seq<Line>)
    requires tail != [] ==> Detached(tail[0])
    ensures Read(upper + if tail != [] then tail else [EMPTY_LINE]) == Read(upper) + Read(tail)
  {
    ReadConcat(upper, if tail != [] then tail else [EMPTY_LINE]);
    if tail == [] {
      ReadNothing([EMPTY_LINE]);
    }
  }

  lemma RemoveFromConcat(upper: seq<ProfileEntry>, block: seq<ProfileEntry>, tail: seq<ProfileEntry>, id: string)
    requires block != [] && Position(upper + (block + tail), id) == |upper|
    ensures HasId(upper + (block + tail), id)
    ensures RemoveEntry(upper + (block + tail), id) == upper + tail <==> |block| == 1
  {
    assert |RemoveEntry(upper + (block + tail), id)| == |upper| + |block| + |tail| - 1;
    if |block| == 1 {
      assert RemoveEntry(upper + (block + tail), id) == upper + tail;
    }
  }

  // ----- lines that the reader does not miss

  /** No entry that begins in these lines could go on below them. */
  ghost predicate Loose(a: seq<Line>) {
    && (a != [] ==> IdOf(Last(a)).None?)
    && (|a| >= 2 ==> !(IdOf(a[|a| - 2]).Some? && NameOf(a[|a| - 1]).Some?))
  }

  lemma {:induction false} ReadIgnores(a: seq<Line>, x: Line, b: seq<Line>)
    requires Loose(a) && IdOf(x).None?
    ensures Read(a + [x] + b) == Read(a + b)
    decreases |a|
  {
    if a == [] {
      assert a + [x] + b == [x] + b && a + b == b;
      ReadBehind(x, b);
    } else {
      assert (a + [x] + b)[1..] == a[1..] + [x] + b && (a + b)[1..] == a[1..] + b;
      ReadIgnores(a[1..], x, b);
      assert EntryAt(a + [x] + b, 0) == EntryAt(a + b, 0);
    }
  }

  /** The entries inside the block of another keep away from its own keys: what stands in the two lines
      below their id lines is not at the indent of those keys. */
  predicate ChildrenApart(block: seq<Line>, child: string) {
    forall k :: 2 <= k < |block| && IdOf(block[k]).Some? ==>
      (k + 1 < |block| ==> block[k + 1].indent != child) && (k + 2 < |block| ==> block[k + 2].indent != child)
  }

  lemma LooseAbove(block: seq<Line>, child: string, k: nat)
    requires ChildrenApart(block, child) && 2 <= k < |block| && block[k].indent == child
    ensures Loose(block[2..k])
  {
    var a := block[2..k];
    assert a != [] ==> Last(a) == block[k - 1];
    assert |a| >= 2 ==> a[|a| - 2] == block[k - 2];
  }

  lemma DropReads(block: seq<Line>, post: seq<Line>, child: string, k: nat)
    requires ChildrenApart(block, child) && 2 <= k < |block| && block[k].indent == child && IdOf(block[k]).None?
    ensures var cleared := block[..k] + block[k + 1..];
            Read(cleared[2..] + post) == Read(block[2..] + post) && ChildrenApart(cleared, child)
  {
    var cleared := block[..k] + block[k + 1..];
    LooseAbove(block, child, k);
    ReadIgnores(block[2..k], block[k], block[k + 1..] + post);
    DropInTail(block, post, k);
    DropKeepsApart(block, child, k);
  }

  lemma DropKeepsApart(block: seq<Line>, child: string, k: nat)
    requires ChildrenApart(block, child) && 2 <= k < |block| && block[k].indent == child
    ensures ChildrenApart(block[..k] + block[k + 1..], child)
  {
    var cleared := block[..k] + block[k + 1..];
    forall m | 2 <= m < |cleared| && IdOf(cleared[m]).Some?
      ensures m + 1 < |cleared| ==> cleared[m + 1].indent != child
      ensures m + 2 < |cleared| ==> cleared[m + 2].indent != child
    {
      var o := if m < k then m else m + 1;
      assert cleared[m] == block[o];
      assert o + 1 < |block| ==> block[o + 1].indent != child;
      assert o + 2 < |block| ==> block[o + 2].indent != child;
      assert m < k ==> m + 2 < k;
    }
  }

  lemma InsertReads(cleared: seq<Line>, post: seq<Line>, child: string, n: nat, mark: Line)
    requires ChildrenApart(cleared, child) && 1 <= n < |cleared| && cleared[n].indent == child
    requires IdOf(cleared[n]).None? && IdOf(mark).None?
    ensures var edited := cleared[..n + 1] + [mark] + cleared[n + 1..];
            Read(edited[2..] + post) == Read(cleared[2..] + post)
  {
    var a := cleared[2..n + 1];
    assert Loose(a) by {
      assert n >= 2 ==> Last(a) == cleared[n];
      assert n >= 3 ==> a[|a| - 2] == cleared[n - 1];
    }
    ReadIgnores(a, mark, cleared[n + 1..] + post);
    InsertInTail(cleared, post, n, mark);
  }

  lemma DropInTail<T>(s: seq<T>, post: seq<T>, k: nat)
    requires 2 <= k < |s|
    ensures s[2..] + post == s[2..k] + [s[k]] + (s[k + 1..] + post)
    ensures (s[..k] + s[k + 1..])[2..] + post == s[2..k] + (s[k + 1..] + post)
  {
  }

  lemma InsertInTail<T>(s: seq<T>, post: seq<T>, n: nat, x: T)
    requires 1 <= n < |s|
    ensures (s[..n + 1] + [x] + s[n + 1..])[2..] + post == s[2..n + 1] + [x] + (s[n + 1..] + post)
    ensures s[2..] + post == s[2..n + 1] + (s[n + 1..] + post)
  {
  }

  lemma TailOfSum<T>(s: seq<T>, post: seq<T>)
    requires |s| >= 2
    ensures |s + post| >= 2 && (s + post)[0] == s[0] && (s + post)[1] == s[1] && (s + post)[2..] == s[2..] + post
    ensures |s| >= 3 ==> (s + post)[2] == s[2]
  {
  }

  lemma KeyLineIsNoItem(line: Line, indent: string)
    ensures HasKey(line, indent, DISABLED_KEY) || HasKey(line, indent, "name: ") ==> IdOf(line).None?
  {
    assert HasKey(line, indent, DISABLED_KEY) ==> line.content[0] == 'd';
    assert HasKey(line, indent, "name: ") ==> line.content[0] == 'n';
  }

  // ----- switch off and on

  /** The block without its first terminated disabled key. */
  function ClearedBlock(block: seq<Line>, indent: string): seq<Line> {
    DropFirst(KeyTest(ChildIndent(indent), DISABLED_KEY), block)
  }

  ghost predicate EntryBlock(block: seq<Line>, indent: string) {
    && |block| >= 2 && AllBlank(indent)
    && IdOf(block[0]).Some? && block[0].indent == indent && NameOf(block[1]).Some?
    && ChildrenApart(block, ChildIndent(indent))
  }

  lemma HeadHasNoKey(block: seq<Line>, indent: string)
    requires EntryBlock(block, indent)
    ensures !HasKey(block[0], ChildIndent(indent), DISABLED_KEY) && !HasKey(block[0], ChildIndent(indent), "name: ")
    ensures !HasKey(block[1], ChildIndent(indent), DISABLED_KEY)
    ensures HasKey(block[1], ChildIndent(indent), "name: ") <==> block[1].indent == ChildIndent(indent)
  {
    KeysAreApart(block[0], indent);
    assert NAME_KEY[..6] == "name: ";
    assert block[1].content[0] == 'n';
  }

  /** Dropping the key leaves the head of the block, and the entries below it as they are read. */
  lemma ClearedReads(block: seq<Line>, post: seq<Line>, indent: string)
    requires EntryBlock(block, indent)
    ensures var cleared := ClearedBlock(block, indent);
            && EntryBlock(cleared, indent) && cleared[0] == block[0] && cleared[1] == block[1]
            && Read(cleared[2..] + post) == Read(block[2..] + post)
  {
    var isKey := KeyTest(ChildIndent(indent), DISABLED_KEY);
    var k := First(isKey, block);
    HeadHasNoKey(block, indent);
    if k < |block| {
      assert k >= 2;
      KeyLineIsNoItem(block[k], ChildIndent(indent));
      DropReads(block, post, ChildIndent(indent), k);
    }
  }

  /** So does putting the mark below the name; it is read at once exactly if it lands directly below
      the name line of the entry. */
  lemma MarkedReads(cleared: seq<Line>, post: seq<Line>, indent: string)
    requires EntryBlock(cleared, indent)
    ensures var edited := InsertAfterFirst(KeyTest(ChildIndent(indent), "name: "), DisabledLine(indent), cleared);
            && |edited| >= 2 && edited[0] == cleared[0] && edited[1] == cleared[1]
            && Read(edited[2..] + post) == Read(cleared[2..] + post)
            && (if cleared[1].indent == ChildIndent(indent)
                then |edited| >= 3 && edited[2] == DisabledLine(indent)
                else edited[2..] + post == cleared[2..] + post
                     || (|edited| >= 3 && |cleared| >= 3 && edited[2] == cleared[2]))
  {
    var isName := KeyTest(ChildIndent(indent), "name: ");
    var n := First(isName, cleared);
    HeadHasNoKey(cleared, indent);
    KeysAreApart(cleared[0], indent);
    if cleared[1].indent == ChildIndent(indent) {
      FirstIs(isName, cleared, 1);
    }
    if n < |cleared| {
      KeyLineIsNoItem(cleared[n], ChildIndent(indent));
      InsertReads(cleared, post, ChildIndent(indent), n, DisabledLine(indent));
    }
  }

  /** The line below the name, with the first terminated disabled key dropped, still reads as switched
      off. This is what switching on cannot undo. */
  ghost predicate StillOff(lines: seq<Line>, id: string)
    requires Anchored(lines, id)
  {
    var i := FindId(lines, id);
    var lower := ClearedBlock(BlockOf(lines, id), lines[i].indent) + lines[TerminatedEnd(lines, i)..];
    && NameOf(lines[i + 1]).Some? && NameOf(lines[i + 1]).value.closesLine
    && |lower| >= 3 && HasKey(lower[2], lines[i + 1].indent, DISABLED_TRUE)
  }

  /** The name line is terminated, ends with its quote and stands where the editor looks for it. */
  ghost predicate NameInPlace(lines: seq<Line>, id: string)
    requires Anchored(lines, id)
  {
    var i := FindId(lines, id);
    && i + 1 < TerminatedEnd(lines, i) && lines[i + 1].indent == ChildIndent(lines[i].indent)
    && NameOf(lines[i + 1]).Some? && NameOf(lines[i + 1]).value.closesLine
  }

  /** What switching makes of a block that holds the name line. */
  lemma SwitchedBlock(block: seq<Line>, post: seq<Line>, indent: string, disabled: bool)
    requires EntryBlock(block, indent)
    ensures var lower := SwitchBlock(block, indent, disabled) + post;
            && |lower| >= 2 && lower[0] == block[0] && lower[1] == block[1]
            && Read(lower[2..]) == Read((block + post)[2..])
  {
    var cleared := ClearedBlock(block, indent);
    ClearedReads(block, post, indent);
    MarkedReads(cleared, post, indent);
    TailOfSum(block, post);
    TailOfSum(SwitchBlock(block, indent, disabled), post);
  }

  /** The flag that is read then. */
  lemma SwitchedFlag(block: seq<Line>, post: seq<Line>, indent: string, disabled: bool)
    requires EntryBlock(block, indent)
    ensures var lower := SwitchBlock(block, indent, disabled) + post;
            var cleared := ClearedBlock(block, indent) + post;
            var inPlace := block[1].indent == ChildIndent(indent);
            && |lower| >= 2
            && (HeadEntry(block[0], block[1], lower[2..]).disabled <==>
                NameOf(block[1]).value.closesLine &&
                if disabled && inPlace then true else |cleared| >= 3 && HasKey(cleared[2], block[1].indent, DISABLED_TRUE))
  {
    var cleared := ClearedBlock(block, indent);
    var edited := SwitchBlock(block, indent, disabled);
    ClearedReads(block, post, indent);
    MarkedReads(cleared, post, indent);
    TailOfSum(cleared, post);
    TailOfSum(edited, post);
    if disabled && block[1].indent == ChildIndent(indent) {
      assert (edited + post)[2..][0] == edited[2];
    } else {
      SameThird(edited, cleared, post);
    }
  }

  lemma SameThird(a: seq<Line>, b: seq<Line>, post: seq<Line>)
    requires |a| >= 2 && |b| >= 2
    requires a[2..] + post == b[2..] + post || (|a| >= 3 && |b| >= 3 && a[2] == b[2])
    ensures (a + post)[2..] != [] <==> |b + post| >= 3
    ensures |b + post| >= 3 ==> (a + post)[2..][0] == (b + post)[2]
  {
    TailOfSum(a, post);
    TailOfSum(b, post);
    assert |b + post| >= 3 ==> (b + post)[2] == (b + post)[2..][0];
    assert |a| >= 3 ==> (a[2..] + post)[0] == a[2];
    assert |b| >= 3 ==> (b[2..] + post)[0] == b[2];
  }

  /** A block that does not reach the name line is left alone. */
  lemma BareBlock(idLine: Line, indent: string, disabled: bool)
    requires IdOf(idLine).Some? && idLine.indent == indent
    ensures SwitchBlock([idLine], indent, disabled) == [idLine] && ClearedBlock([idLine], indent) == [idLine]
  {
    KeysAreApart(idLine, indent);
    FirstIs(KeyTest(ChildIndent(indent), DISABLED_KEY), [idLine], 1);
    FirstIs(KeyTest(ChildIndent(indent), "name: "), [idLine], 1);
  }

  /** The lower part of the text after a switch. */
  lemma SwitchedLower(lines: seq<Line>, id: string, disabled: bool)
    requires Anchored(lines, id) && ScanEnds(lines, id)
    requires ChildrenApart(BlockOf(lines, id), ChildIndent(lines[FindId(lines, id)].indent))
    ensures var i := FindId(lines, id);
            var lower := SwitchBlock(BlockOf(lines, id), lines[i].indent, disabled) + lines[TerminatedEnd(lines, i)..];
            && i + 1 < |lines| && IdOf(lines[i]).Some? && NameOf(lines[i + 1]).Some?
            && |lower| >= 2 && lower[0] == lines[i] && lower[1] == lines[i + 1]
            && Read(lower[2..]) == Read(lines[i + 2..])
            && (HeadEntry(lines[i], lines[i + 1], lower[2..]).disabled <==>
                if disabled then NameInPlace(lines, id) || StillOff(lines, id) else StillOff(lines, id))
  {
    var i := FindId(lines, id);
    var e := TerminatedEnd(lines, i);
    var block, post := BlockOf(lines, id), lines[e..];
    IdAndName(lines, id);
    assert block + post == lines[i..];
    assert (block + post)[2..] == lines[i + 2..];
    assert (block + post)[0] == lines[i] && (block + post)[1] == lines[i + 1];
    if e >= i + 2 {
      assert block[0] == lines[i] && block[1] == lines[i + 1];
      SwitchedBlock(block, post, lines[i].indent, disabled);
      SwitchedFlag(block, post, lines[i].indent, disabled);
    } else {
      assert e == i + 1;
      assert block == [lines[i]];
      BareBlock(lines[i], lines[i].indent, disabled);
    }
  }

  /** Switching comes to an end exactly if nothing in the block stands at the left margin. Then the
      reader sees the entry switched off exactly if the name line is in place, or the entry reads as
      switched off without the key that was dropped; and sees it switched on exactly if it does not. */
  lemma ReadSwitched(lines: seq<Line>, id: string, disabled: bool)
    requires Anchored(lines, id)
    requires ChildrenApart(BlockOf(lines, id), ChildIndent(lines[FindId(lines, id)].indent))
    ensures TextSetDisabled(lines, id, disabled).Edited? <==> ScanEnds(lines, id)
    ensures HasId(Read(lines), id)
    ensures ScanEnds(lines, id) ==>
      (Read(TextSetDisabled(lines, id, disabled).text) == SetDisabled(Read(lines), id, disabled) <==>
       if disabled then NameInPlace(lines, id) || StillOff(lines, id) else !StillOff(lines, id))
  {
    var i := FindId(lines, id);
    DivergesExactly(lines, id, disabled);
    IdAndName(lines, id);
    PositionOfId(lines, id);
    assert lines[i..] == [lines[i], lines[i + 1]] + lines[i + 2..];
    ReadHead(lines[i], lines[i + 1], lines[i + 2..]);
    SwitchInConcat(Read(lines[..i]), HeadEntry(lines[i], lines[i + 1], lines[i + 2..]), Read(lines[i + 2..]), id, disabled);
    if ScanEnds(lines, id) {
      SwitchedText(lines, id, disabled);
      FlagDecides(Read(lines[..i]), HeadEntry(lines[i], lines[i + 1], lines[i + 2..]), Read(lines[i + 2..]), disabled,
                  if disabled then NameInPlace(lines, id) || StillOff(lines, id) else StillOff(lines, id));
    }
  }

  lemma FlagDecides(upper: seq<ProfileEntry>, entry: ProfileEntry, tail: seq<ProfileEntry>, a: bool, b: bool)
    ensures upper + ([entry.(disabled := a)] + tail) == upper + ([entry.(disabled := b)] + tail) <==> a == b
  {
    assert (upper + ([entry.(disabled := a)] + tail))[|upper|].disabled == a;
    assert (upper + ([entry.(disabled := b)] + tail))[|upper|].disabled == b;
  }

  /** The text after a switch, as it is read. */
  lemma SwitchedText(lines: seq<Line>, id: string, disabled: bool)
    requires Anchored(lines, id) && ScanEnds(lines, id)
    requires ChildrenApart(BlockOf(lines, id), ChildIndent(lines[FindId(lines, id)].indent))
    ensures var i := FindId(lines, id);
            var off := if disabled then NameInPlace(lines, id) || StillOff(lines, id) else StillOff(lines, id);
            && i + 1 < |lines| && IdOf(lines[i]).Some? && NameOf(lines[i + 1]).Some?
            && TextSetDisabled(lines, id, disabled).Edited?
            && Read(TextSetDisabled(lines, id, disabled).text)
               == Read(lines[..i])
                  + ([HeadEntry(lines[i], lines[i + 1], lines[i + 2..]).(disabled := off)] + Read(lines[i + 2..]))
  {
    var i := FindId(lines, id);
    var lower := SwitchBlock(BlockOf(lines, id), lines[i].indent, disabled) + lines[TerminatedEnd(lines, i)..];
    SetDisabledIsSwitch(lines, id, disabled);
    SwitchedLower(lines, id, disabled);
    assert TextSetDisabled(lines, id, disabled).text == lines[..i] + lower;
    assert lower == [lines[i], lines[i + 1]] + lower[2..];
    ReadHead(lines[i], lines[i + 1], lower[2..]);
    ItemIsDetached(lines[i]);
    ReadConcat(lines[..i], lower);
  }

  lemma SwitchInConcat(upper: seq<ProfileEntry>, entry: ProfileEntry, tail: seq<ProfileEntry>, id: string, disabled: bool)
    requires Position(upper + ([entry] + tail), id) == |upper|
    ensures HasId(upper + ([entry] + tail), id)
    ensures SetDisabled(upper + ([entry] + tail), id, disabled) == upper + ([entry.(disabled := disabled)] + tail)
  {
  }

  /** The form in which the gateway writes an entry, and keeps it when it switches it: the name directly
      below the id, where the editor looks for it, and at most one disabled key, directly below the
      name; a line feed behind it all. */
  ghost predicate Managed(lines: seq<Line>, id: string) {
    && Anchored(lines, id) && NameInPlace(lines, id) && lines != [] && Last(lines) == EMPTY_LINE
    && forall k :: 3 <= k < |BlockOf(lines, id)| ==>
         !HasKey(BlockOf(lines, id)[k], ChildIndent(lines[FindId(lines, id)].indent), DISABLED_KEY)
  }

  /** In that form a switch in either direction is read back. */
  lemma ManagedIsSwitched(lines: seq<Line>, id: string)
    requires Managed(lines, id)
    ensures NameInPlace(lines, id) && !StillOff(lines, id)
  {
    var i := FindId(lines, id);
    var e, indent := TerminatedEnd(lines, i), lines[i].indent;
    var block, post := BlockOf(lines, id), lines[e..];
    var k := First(KeyTest(ChildIndent(indent), DISABLED_KEY), block);
    var cleared := ClearedBlock(block, indent);
    IdAndName(lines, id);
    KeysAreApart(lines[i], indent);
    assert block[0] == lines[i] && block[1] == lines[i + 1] && block[1].content[0] == 'n';
    assert k == 2 || k == |block|;
    assert |cleared| >= 3 ==> !HasKey(cleared[2], ChildIndent(indent), DISABLED_KEY);
    AfterBlock(lines, i);
    assert (cleared + post)[2] == if |cleared| >= 3 then cleared[2] else post[0];
    DisabledTrueIsDisabled((cleared + post)[2], ChildIndent(indent));
  }

  /** What follows the terminated lines of a block in a text that ends in a line feed. */
  lemma AfterBlock(lines: seq<Line>, i: nat)
    requires i < |lines| && Last(lines) == EMPTY_LINE
    ensures !HasKey(lines[TerminatedEnd(lines, i)], ChildIndent(lines[i].indent), DISABLED_KEY)
  {
    EndOfBlock(lines, i + 1, lines[i].indent);
  }

  /** An entry that an install has put in front of its anchor can be switched in either direction. */
  lemma AppendedCanBeSwitched(lines: seq<Line>, plugin: Plugin, printed: Printed, anchor: string,
                              text: seq<Line>, disabled: bool)
    requires Printable(plugin) && !Mentions(lines, plugin.packageName) && FindId(lines, anchor) < |lines|
    requires FindId(lines, EntryId(plugin)) == |lines| && text == TextAppend(lines, plugin, printed, Some(anchor))
    ensures TextSetDisabled(text, EntryId(plugin), disabled).Edited? && HasId(Read(text), EntryId(plugin))
    ensures Read(TextSetDisabled(text, EntryId(plugin), disabled).text) == SetDisabled(Read(text), EntryId(plugin), disabled)
  {
    var i := FindId(lines, anchor);
    var indent := lines[i].indent;
    EntryLinesShape(plugin, printed, indent);
    NoIdAnywhere(lines, EntryId(plugin));
    Pieces(lines, anchor);
    ItemIsDetached(lines[i]);
    FirstIs(EndTest(indent), lines[i..], 0);
    SplicedEntry(lines[..i], EntryLines(plugin, printed, indent), lines[i..], EntryId(plugin), plugin.packageName, indent);
    ReadSwitched(text, EntryId(plugin), disabled);
  }

  /** Exactly one of these lines is this one, and no other one at its indent has its key. */
  ghost predicate OnlyLine(block: seq<Line>, line: Line, key: string) {
    exists k :: 0 <= k < |block| && block[k] == line
             && forall j :: 0 <= j < |block| && HasKey(block[j], line.indent, key) ==> j == k
  }

  /** The block of an entry that an append has written, in front of an anchor or at the end, holds one
      line with its configuration as printed, and one line that makes it a group exactly for a group. */
  lemma AppendedHoldsConfig(lines: seq<Line>, plugin: Plugin, printed: Printed, anchor: Option<string>)
    requires Printable(plugin) && !Mentions(lines, plugin.packageName) && FindId(lines, EntryId(plugin)) == |lines|
    ensures var text := TextAppend(lines, plugin, printed, anchor);
            && FindId(text, EntryId(plugin)) < |text|
            && var block, child := BlockOf(text, EntryId(plugin)), ChildIndent(text[FindId(text, EntryId(plugin))].indent);
               && OnlyLine(block, RawLine(child, "config: " + printed.config), "config: ")
               && (if printed.group then OnlyLine(block, RawLine(child, "group: true"), "group: ")
                   else forall k :: 0 <= k < |block| ==> !HasKey(block[k], child, "group: "))
  {
    var i := if anchor.None? then |lines| else FindId(lines, anchor.value);
    NoIdAnywhere(lines, EntryId(plugin));
    if i == |lines| {
      TrimEndIds(lines, EntryId(plugin));
      FirstIs(EndTest(""), [EMPTY_LINE], 1);
      SplicedHoldsConfig(TrimEnd(lines), plugin, printed, "", [EMPTY_LINE]);
    } else {
      Pieces(lines, anchor.value);
      ItemIsDetached(lines[i]);
      FirstIs(EndTest(lines[i].indent), lines[i..], 0);
      SplicedHoldsConfig(lines[..i], plugin, printed, lines[i].indent, lines[i..]);
    }
  }

  lemma SplicedHoldsConfig(pre: seq<Line>, plugin: Plugin, printed: Printed, indent: string, post: seq<Line>)
    requires Printable(plugin) && AllBlank(indent) && HasNoId(pre, EntryId(plugin))
    requires post != [] && (First(EndTest(indent), post) == 0 || (|post| == 1 && First(EndTest(indent), post) == 1))
    ensures var text := pre + EntryLines(plugin, printed, indent) + post;
            && FindId(text, EntryId(plugin)) < |text| && text[FindId(text, EntryId(plugin))].indent == indent
            && var block, child := BlockOf(text, EntryId(plugin)), ChildIndent(indent);
               && OnlyLine(block, RawLine(child, "config: " + printed.config), "config: ")
               && (if printed.group then OnlyLine(block, RawLine(child, "group: true"), "group: ")
                   else forall k :: 0 <= k < |block| ==> !HasKey(block[k], child, "group: "))
  {
    var e := EntryLines(plugin, printed, indent);
    EntryLinesShape(plugin, printed, indent);
    Splice(pre, e, post, EntryId(plugin));
    assert BlockOf(pre + e + post, EntryId(plugin)) == e;
    EntryHoldsConfig(plugin, printed, indent);
  }

  lemma EntryHoldsConfig(plugin: Plugin, printed: Printed, indent: string)
    requires AllBlank(indent)
    ensures var block, child := EntryLines(plugin, printed, indent), ChildIndent(indent);
            && OnlyLine(block, RawLine(child, "config: " + printed.config), "config: ")
            && (if printed.group then OnlyLine(block, RawLine(child, "group: true"), "group: ")
                else forall k :: 0 <= k < |block| ==> !HasKey(block[k], child, "group: "))
  {
    var block := EntryLines(plugin, printed, indent);
    assert block[0].content[0] == '-' && block[1].content[0] == 'n' && Last(block).content[0] == 'c';
    assert printed.group ==> |block| == 4 && block[2].content[0] == 'g';
    assert block[|block| - 1] == RawLine(ChildIndent(indent), "config: " + printed.config);
  }

  /** An entry of the printed shape, between two pieces of text. */
  lemma SplicedEntry(pre: seq<Line>, e: seq<Line>, post: seq<Line>, id: string, packageName: string, indent: string)
    requires HasNoId(pre, id) && AllBlank(indent) && EntryShape(e, indent, id, packageName)
    requires post != [] && First(EndTest(indent), post) == 0
    ensures var all := pre + e + post;
            && Anchored(all, id) && ScanEnds(all, id) && BlockOf(all, id) == e && all[FindId(all, id)].indent == indent
            && ChildrenApart(e, ChildIndent(indent)) && NameInPlace(all, id) && !StillOff(all, id)
  {
    var all := pre + e + post;
    Splice(pre, e, post, id);
    assert all[|pre| + 1] == e[1];
    assert all[|pre| + 1..|pre| + |e|] == e[1..];
    assert BlockOf(all, id) == e;
    KeysAreApart(e[0], indent);
    FirstIs(KeyTest(ChildIndent(indent), DISABLED_KEY), e, |e|);
    assert (e + post)[2] == e[2];
    DisabledTrueIsDisabled(e[2], ChildIndent(indent));
  }

  /** The one key that the reader sees and the editor does not: on a last line without a line feed.
      Switching on changes nothing in such a text, and the entry stays off. */
  lemma UnterminatedKeyStays(lines: seq<Line>, id: string)
    requires Anchored(lines, id) && FindId(lines, id) + 3 == |lines| && ScanEnds(lines, id)
    requires var i := FindId(lines, id);
             NameOf(lines[i + 1]).value.closesLine && HasKey(lines[i + 2], lines[i + 1].indent, DISABLED_TRUE)
             && !EndsBlock(lines[i + 1], lines[i].indent) && !EndsBlock(lines[i + 2], lines[i].indent)
    ensures TextSetDisabled(lines, id, false) == Edited(lines)
    ensures StillOff(lines, id)
  {
    var i := FindId(lines, id);
    var indent := lines[i].indent;
    assert lines[i + 1..] == [lines[i + 1], lines[i + 2]];
    FirstIs(EndTest(indent), lines[i + 1..], 2);
    IdAndName(lines, id);
    KeysAreApart(lines[i], indent);
    assert lines[i + 1].content[0] == 'n';
    assert BlockOf(lines, id) == [lines[i], lines[i + 1]];
    FirstIs(KeyTest(ChildIndent(indent), DISABLED_KEY), BlockOf(lines, id), 2);
    SetDisabledIsSwitch(lines, id, false);
    OwnBlock(lines, id);
  }
}
