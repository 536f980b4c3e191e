/** Edits of the profile text undo each other, and the reader sees each of them as the edit of one
    entry that the marketplace handlers reason with. */
module ProfileRoundTrip {
  import opened Wrappers
  import opened InstallPlan
  import opened Marketplace
  import opened ProfileText
  import opened Edits

  /** What the schema check guarantees of ids and package names, as far as printing is concerned. */
  ghost predicate Printable(plugin: Plugin) {
    && plugin.id != "" && (forall k :: 0 <= k < |plugin.id| ==> !IsBlank(plugin.id[k]) && plugin.id[k] != '"')
    && plugin.packageName != "" && '"' !in plugin.packageName
  }

  // ----- parsing what was printed

  lemma {:induction false} WordOf(word: string)
    requires forall k :: 0 <= k < |word| ==> !IsBlank(word[k])
    ensures Word(word) == word
  {
    if word != "" {
      WordOf(word[1..]);
    }
  }

  lemma {:induction false} UpToQuoteOf(text: string)
    requires '"' !in text
    ensures UpToQuote(text + "\"") == text
  {
    if text != "" {
      UpToQuoteOf(text[1..]);
      assert (text + "\"")[1..] == text[1..] + "\"";
    } else {
      assert text + "\"" == "\"";
    }
  }

  lemma PrintedId(indent: string, id: string)
    requires AllBlank(indent) && id != "" && forall k :: 0 <= k < |id| ==> !IsBlank(id[k])
    ensures IdOf(RawLine(indent, "- id: " + id)) == Some(id)
  {
    WordOf(id);
    assert ("- id: " + id)[6..] == id;
  }

  lemma PrintedName(indent: string, packageName: string)
    requires AllBlank(indent) && indent != "" && packageName != "" && '"' !in packageName
    ensures var line := RawLine(indent, NAME_KEY + packageName + "\"");
            NameOf(line) == Some(Name(packageName, true)) && "name: " <= line.content
  {
    UpToQuoteOf(packageName);
    assert (NAME_KEY + packageName + "\"")[|NAME_KEY|..] == packageName + "\"";
    assert (NAME_KEY + packageName + "\"")[..6] == "name: ";
  }

  /** A line inside the block of an item, other than its disabled key. */
  ghost predicate ChildLine(line: Line, indent: string) {
    && IdOf(line).None? && !EndsBlock(line, indent) && line.indent != ""
    && !HasKey(line, ChildIndent(indent), DISABLED_KEY)
  }

  ghost predicate EntryShape(e: seq<Line>, indent: string, id: string, packageName: string) {
    && 3 <= |e| <= 4
    && IdOf(e[0]) == Some(id) && e[0].indent == indent
    && NameOf(e[1]) == Some(Name(packageName, true)) && HasKey(e[1], ChildIndent(indent), "name: ")
    && (forall k :: 1 <= k < |e| ==> ChildLine(e[k], indent))
    && (forall k :: 2 <= k < |e| ==> NameOf(e[k]).None?)
  }

  /** How the lines of a printed entry parse. */
  lemma EntryLinesShape(plugin: Plugin, printed: Printed, indent: string)
    requires Printable(plugin) && AllBlank(indent)
    ensures EntryShape(EntryLines(plugin, printed, indent), indent, EntryId(plugin), plugin.packageName)
  {
    PrintedId(indent, EntryId(plugin));
    PrintedName(ChildIndent(indent), plugin.packageName);
    var e := EntryLines(plugin, printed, indent);
    forall k | 1 <= k < |e|
      ensures e[k].content[0] in ['n', 'g', 'c'] && e[k].indent == ChildIndent(indent)
      ensures k >= 2 ==> e[k].content[0] != 'n'
    {
    }
  }

  // ----- reading pieces

  /** A line that can start a piece: it continues no entry above it. */
  predicate Detached(line: Line) {
    !("name: " <= line.content) && !(DISABLED_TRUE <= line.content)
  }

  lemma ItemIsDetached(line: Line)
    requires IdOf(line).Some?
    ensures Detached(line) && IsItem(line) && EndsBlock(line, line.indent)
  {
    assert "- id: "[..2] == "- ";
    assert line.content[0] == '-';
  }

  lemma DetachedHasNoName(line: Line)
    requires Detached(line)
    ensures NameOf(line).None?
  {
    assert NAME_KEY[..6] == "name: ";
    assert NAME_KEY <= line.content ==> "name: " <= line.content;
  }

  /** An entry of the upper piece is read alike with or without the lower piece. */
  lemma EntryAtSplit(a: seq<Line>, b: seq<Line>)
    requires a != [] && (b == [] || Detached(b[0]))
    ensures EntryAt(a + b, 0) == EntryAt(a, 0)
  {
    if b != [] {
      DetachedHasNoName(b[0]);
    }
  }

  lemma {:induction false} ReadConcat(a: seq<Line>, b: seq<Line>)
    requires b == [] || Detached(b[0])
    ensures Read(a + b) == Read(a) + Read(b)
  {
    if a == [] {
      assert a + b == b;
    } else {
      assert (a + b)[1..] == a[1..] + b;
      ReadConcat(a[1..], b);
      EntryAtSplit(a, b);
    }
  }

  /** Lines that are no id lines hold no entries. */
  lemma {:induction false} ReadNothing(lines: seq<Line>)
    requires forall line :: line in lines ==> IdOf(line).None?
    ensures Read(lines) == []
  {
    if lines != [] {
      ReadNothing(lines[1..]);
    }
  }

  /** Reading on behind a line that is no id line. */
  lemma ReadBehind(line: Line, lines: seq<Line>)
    requires IdOf(line).None?
    ensures Read([line] + lines) == Read(lines)
  {
    assert ([line] + lines)[1..] == lines;
  }

  lemma DisabledTrueIsDisabled(line: Line, indent: string)
    ensures HasKey(line, indent, DISABLED_TRUE) ==> HasKey(line, indent, DISABLED_KEY)
  {
    assert DISABLED_TRUE[..|DISABLED_KEY|] == DISABLED_KEY;
  }

  /** The printed entry reads back as itself, switched on. */
  lemma ReadPrinted(plugin: Plugin, printed: Printed, indent: string)
    requires Printable(plugin) && AllBlank(indent)
    ensures Read(EntryLines(plugin, printed, indent)) == [ProfileEntry(EntryId(plugin), plugin.packageName, false)]
  {
    var e := EntryLines(plugin, printed, indent);
    EntryLinesShape(plugin, printed, indent);
    DisabledTrueIsDisabled(e[2], ChildIndent(indent));
    ReadNothing(e[1..]);
  }

  /** Entries in text without an id line of this id have other ids. */
  lemma {:induction false} ReadIds(lines: seq<Line>, id: string)
    requires HasNoId(lines, id)
    ensures forall e :: e in Read(lines) ==> e.id != id
  {
    if lines != [] {
      ReadIds(lines[1..], id);
    }
  }

  lemma {:induction false} PositionInConcat(a: seq<ProfileEntry>, b: seq<ProfileEntry>, id: string)
    requires forall e :: e in a ==> e.id != id
    ensures Position(a + b, id) == |a| + Position(b, id)
  {
    if a == [] {
      assert a + b == b;
    } else {
      assert (a + b)[1..] == a[1..] + b;
      PositionInConcat(a[1..], b, id);
    }
  }

  // ----- finding blocks

  ghost predicate HasNoId(lines: seq<Line>, id: string) {
    forall line :: line in lines ==> IdOf(line) != Some(id)
  }

  ghost predicate NoneEnds(lines: seq<Line>, indent: string) {
    forall line :: line in lines ==> !EndsBlock(line, indent)
  }

  /** A block put between two pieces is found where it was put, and its end too. */
  lemma Splice(pre: seq<Line>, block: seq<Line>, post: seq<Line>, id: string)
    requires HasNoId(pre, id) && block != [] && IdOf(block[0]) == Some(id)
    requires NoneEnds(block[1..], block[0].indent)
    ensures var all := pre + block + post;
            && FindId(all, id) == |pre| && all[|pre|] == block[0]
            && BlockEnd(all, |pre| + 1, block[0].indent)
               == |pre| + |block| + First(EndTest(block[0].indent), post)
            && all[..|pre|] == pre && all[|pre|..|pre| + |block|] == block && all[|pre| + |block|..] == post
            && all[|pre| + |block| + First(EndTest(block[0].indent), post)..]
               == post[First(EndTest(block[0].indent), post)..]
  {
    FirstInSplice(IdTest(id), EndTest(block[0].indent), pre, block, post);
    DropTwice(pre + block + post, |pre| + |block|, First(EndTest(block[0].indent), post));
  }

  /** What the editor has found: the id line, and a block with no line that ends it. */
  lemma Pieces(lines: seq<Line>, id: string)
    requires FindId(lines, id) < |lines|
    ensures var i := FindId(lines, id);
            var j := BlockEnd(lines, i + 1, lines[i].indent);
            && IdOf(lines[i]) == Some(id) && HasNoId(lines[..i], id)
            && NoneEnds(lines[i + 1..j], lines[i].indent)
            && (j < |lines| ==> EndsBlock(lines[j], lines[i].indent))
  {
    assert IdTest(id)(lines[FindId(lines, id)]);
  }

  lemma NoIdAnywhere(lines: seq<Line>, id: string)
    requires FindId(lines, id) == |lines|
    ensures HasNoId(lines, id)
  {
  }

  // ----- append and remove

  lemma RemoveAt(lines: seq<Line>, id: string, i: nat, j: nat)
    requires FindId(lines, id) == i < |lines| && BlockEnd(lines, i + 1, lines[i].indent) == j && Indented(lines[i + 1..j])
    ensures TextRemove(lines, id) == Edited(lines[..i] + if j < |lines| then lines[j..] else [EMPTY_LINE])
  {
    ScanExactly(lines, i + 1, lines[i].indent);
  }

  /** Removing a block that was put between two pieces. */
  lemma RemovedText(pre: seq<Line>, block: seq<Line>, post: seq<Line>, id: string, k: nat)
    requires HasNoId(pre, id) && block != [] && IdOf(block[0]) == Some(id)
    requires NoneEnds(block[1..], block[0].indent)
    requires k == First(EndTest(block[0].indent), post)
    requires Indented(block[1..]) && Indented(post[..k])
    ensures TextRemove(pre + block + post, id) == Edited(pre + if k < |post| then post[k..] else [EMPTY_LINE])
  {
    var all := pre + block + post;
    var i, j := |pre|, |pre| + |block| + k;
    Splice(pre, block, post, id);
    assert all[i + 1..j] == block[1..] + post[..k];
    RemoveAt(all, id, i, j);
    assert k < |post| <==> j < |all|;
    assert all[..i] == pre;
    assert all[j..] == post[k..];
  }

  /** Putting a printed entry in front of the anchor and removing it again gives back the source. */
  lemma AppendThenRemove(lines: seq<Line>, plugin: Plugin, printed: Printed, anchor: string)
    requires Printable(plugin) && !Mentions(lines, plugin.packageName)
    requires FindId(lines, EntryId(plugin)) == |lines| && FindId(lines, anchor) < |lines|
    ensures TextRemove(TextAppend(lines, plugin, printed, Some(anchor)), EntryId(plugin)) == Edited(lines)
  {
    var i := FindId(lines, anchor);
    EntryLinesShape(plugin, printed, lines[i].indent);
    NoIdAnywhere(lines, EntryId(plugin));
    Pieces(lines, anchor);
    ItemIsDetached(lines[i]);
    FirstIs(EndTest(lines[i].indent), lines[i..], 0);
    RemovedText(lines[..i], EntryLines(plugin, printed, lines[i].indent), lines[i..], EntryId(plugin), 0);
    Rejoin(lines, i);
  }

  lemma {:induction false} TrimTextDropsBlanks(s: string)
    ensures s == TrimText(s) + s[|TrimText(s)|..] && AllBlank(s[|TrimText(s)|..])
  {
    if s != "" && IsBlank(Last(s)) {
      var shorter := s[..|s| - 1];
      TrimTextDropsBlanks(shorter);
      assert s == shorter + [Last(s)];
      assert s[|TrimText(s)|..] == shorter[|TrimText(s)|..] + [Last(s)];
    }
  }

  lemma {:induction false} WordBeforeBlanks(s: string, blanks: string)
    requires AllBlank(blanks)
    ensures Word(s + blanks) == Word(s)
  {
    if s == "" {
      assert s + blanks == blanks;
    } else if !IsBlank(s[0]) {
      WordBeforeBlanks(s[1..], blanks);
      assert (s + blanks)[1..] == s[1..] + blanks;
    }
  }

  /** Trimming a line makes no id line of it. */
  lemma TrimLineId(line: Line, id: string)
    requires IdOf(TrimLine(line)) == Some(id)
    ensures IdOf(line) == Some(id)
  {
    var trimmed := TrimText(line.content);
    var blanks := line.content[|trimmed|..];
    TrimTextDropsBlanks(line.content);
    assert "- id: " <= trimmed;
    assert line.content[6..] == trimmed[6..] + blanks;
    WordBeforeBlanks(trimmed[6..], blanks);
    assert line.content[6 + |id|..] == trimmed[6 + |id|..] + blanks;
  }

  lemma {:induction false} TrimEndIds(lines: seq<Line>, id: string)
    requires HasNoId(lines, id)
    ensures HasNoId(TrimEnd(lines), id)
  {
    if lines != [] {
      TrimEndIds(lines[..|lines| - 1], id);
      assert Last(lines) in lines;
      if IdOf(TrimLine(Last(lines))) == Some(id) {
        TrimLineId(Last(lines), id);
      }
    }
  }

  /** Without an anchor the entry goes to the end. Removing it leaves the source with its trailing
      white space reduced to one line feed. */
  lemma AppendAtEndThenRemove(lines: seq<Line>, plugin: Plugin, printed: Printed)
    requires Printable(plugin) && !Mentions(lines, plugin.packageName)
    requires FindId(lines, EntryId(plugin)) == |lines|
    ensures TextRemove(TextAppend(lines, plugin, printed, None), EntryId(plugin)) == Edited(TrimEnd(lines) + [EMPTY_LINE])
  {
    NoIdAnywhere(lines, EntryId(plugin));
    TrimEndIds(lines, EntryId(plugin));
    AppendedAtEnd(lines, plugin, printed);
    RemovedFromEnd(TrimEnd(lines), plugin, printed);
  }

  lemma RemovedFromEnd(trimmed: seq<Line>, plugin: Plugin, printed: Printed)
    requires Printable(plugin) && HasNoId(trimmed, EntryId(plugin))
    ensures TextRemove(trimmed + EntryLines(plugin, printed, "") + [EMPTY_LINE], EntryId(plugin))
            == Edited(trimmed + [EMPTY_LINE])
  {
    EntryLinesShape(plugin, printed, "");
    FirstIs(EndTest(""), [EMPTY_LINE], 1);
    RemovedText(trimmed, EntryLines(plugin, printed, ""), [EMPTY_LINE], EntryId(plugin), 1);
  }

  lemma AppendedAtEnd(lines: seq<Line>, plugin: Plugin, printed: Printed)
    requires !Mentions(lines, plugin.packageName)
    ensures TextAppend(lines, plugin, printed, None)
            == TrimEnd(lines) + EntryLines(plugin, printed, "") + [EMPTY_LINE]
  {
  }

  // ----- switching off and on

  /** The id line is neither a name nor a disabled key of its own block, nor is the disabled line
      an id line, a name or an end. */
  lemma KeysAreApart(line: Line, indent: string)
    requires IdOf(line).Some? && line.indent == indent
    ensures forall key :: !HasKey(line, ChildIndent(indent), key)
    ensures var d := DisabledLine(indent);
            && !EndsBlock(d, indent) && IdOf(d).None? && HasKey(d, ChildIndent(indent), DISABLED_KEY)
            && !HasKey(d, ChildIndent(indent), "name: ")
  {
    assert |ChildIndent(indent)| == |indent| + 2;
    DisabledTrueIsDisabled(DisabledLine(indent), ChildIndent(indent));
  }

  /** Switching keeps the id line first and adds no line that would end the block. */
  lemma SwitchBlockShape(block: seq<Line>, indent: string, disabled: bool)
    requires AllBlank(indent)
    requires block != [] && IdOf(block[0]).Some? && block[0].indent == indent && NoneEnds(block[1..], indent)
    ensures var r := SwitchBlock(block, indent, disabled);
            && r != [] && r[0] == block[0] && NoneEnds(r[1..], indent)
            && (Indented(block[1..]) ==> Indented(r[1..]))
  {
    KeysAreApart(block[0], indent);
    SwitchElements(KeyTest(ChildIndent(indent), DISABLED_KEY), KeyTest(ChildIndent(indent), "name: "),
                   DisabledLine(indent), block, disabled);
    IndentedByElements(block[1..], SwitchBlock(block, indent, disabled)[1..], DisabledLine(indent));
  }

  lemma IndentedByElements(before: seq<Line>, after: seq<Line>, mark: Line)
    requires mark.indent != "" && forall line :: line in after ==> line in before || line == mark
    ensures Indented(before) ==> Indented(after)
  {
    forall k | 0 <= k < |after| && Indented(before) && after[k].content != ""
      ensures after[k].indent != ""
    {
      assert after[k] in after;
    }
  }

  /** The terminated lines of the block of an id. */
  function BlockOf(lines: seq<Line>, id: string): seq<Line>
    requires FindId(lines, id) < |lines|
  {
    var i := FindId(lines, id);
    lines[i..TerminatedEnd(lines, i)]
  }

  /** A source with the block of this id replaced. */
  function WithBlock(lines: seq<Line>, id: string, block: seq<Line>): seq<Line>
    requires FindId(lines, id) < |lines|
  {
    var i := FindId(lines, id);
    lines[..i] + block + lines[TerminatedEnd(lines, i)..]
  }

  lemma SetDisabledIsSwitch(lines: seq<Line>, id: string, disabled: bool)
    requires FindId(lines, id) < |lines| && ScanEnds(lines, id)
    ensures TextSetDisabled(lines, id, disabled)
            == Edited(WithBlock(lines, id, SwitchBlock(BlockOf(lines, id), lines[FindId(lines, id)].indent, disabled)))
  {
    DivergesExactly(lines, id, disabled);
  }

  /** After an edit the editor finds the edited block in the same place. */
  lemma EditedBlockFound(lines: seq<Line>, id: string, edited: seq<Line>)
    requires FindId(lines, id) < |lines| && BlockOf(lines, id) != [] && edited != []
    requires edited[0] == lines[FindId(lines, id)] && NoneEnds(edited[1..], edited[0].indent)
    ensures var i := FindId(lines, id);
            var r := WithBlock(lines, id, edited);
            && FindId(r, id) == i && r[i] == lines[i] && TerminatedEnd(r, i) == i + |edited|
            && BlockOf(r, id) == edited
            && r[..i] == lines[..i] && r[i + |edited|..] == lines[TerminatedEnd(lines, i)..]
            && BlockEnd(r, i + 1, edited[0].indent) == i + |edited| + (BlockEnd(lines, i + 1, edited[0].indent) - TerminatedEnd(lines, i))
  {
    var i := FindId(lines, id);
    var indent := lines[i].indent;
    var e := TerminatedEnd(lines, i);
    var post := lines[e..];
    Pieces(lines, id);
    if BlockEnd(lines, i + 1, indent) == |lines| {
      assert post[0] in lines[i + 1..];
      FirstIs(EndTest(indent), post, 1);
    } else {
      FirstIs(EndTest(indent), post, 0);
    }
    Splice(lines[..i], edited, post, id);
  }

  /** And it comes to an end there too. */
  lemma EditedBlockEnds(lines: seq<Line>, id: string, edited: seq<Line>)
    requires FindId(lines, id) < |lines| && BlockOf(lines, id) != [] && edited != []
    requires edited[0] == lines[FindId(lines, id)] && NoneEnds(edited[1..], edited[0].indent)
    requires ScanEnds(lines, id) && Indented(edited[1..])
    ensures FindId(WithBlock(lines, id, edited), id) == FindId(lines, id) && ScanEnds(WithBlock(lines, id, edited), id)
  {
    var i := FindId(lines, id);
    var e, j := TerminatedEnd(lines, i), BlockEnd(lines, i + 1, lines[i].indent);
    var r := WithBlock(lines, id, edited);
    EditedBlockFound(lines, id, edited);
    SliceOfEdited(lines[..i], edited, lines[e..], j - e);
    if e < j {
      assert lines[i + 1..j][e - i - 1] == lines[e];
      assert lines[e..][..j - e] == [lines[e]];
    }
  }

  lemma SliceOfEdited<T>(a: seq<T>, b: seq<T>, c: seq<T>, k: nat)
    requires b != [] && k <= |c|
    ensures (a + b + c)[|a| + 1..|a| + |b| + k] == b[1..] + c[..k]
  {
  }

  lemma IndentedFront(lines: seq<Line>, i: nat, e: nat, j: nat)
    requires i < e <= j <= |lines| && Indented(lines[i + 1..j])
    ensures Indented(lines[i..e][1..])
  {
    assert forall k :: 0 <= k < e - i - 1 ==> lines[i..e][1..][k] == lines[i + 1..j][k];
  }

  /** Two edits in a row act on the same block. */
  lemma SwitchTwice(lines: seq<Line>, id: string, first: bool, second: bool)
    requires FindId(lines, id) < |lines| && ScanEnds(lines, id)
    ensures var indent := lines[FindId(lines, id)].indent;
            var once := TextSetDisabled(lines, id, first);
            && once.Edited?
            && TextSetDisabled(once.text, id, second)
               == Edited(WithBlock(lines, id, SwitchBlock(SwitchBlock(BlockOf(lines, id), indent, first), indent, second)))
  {
    var i := FindId(lines, id);
    var indent := lines[i].indent;
    var block := BlockOf(lines, id);
    var e, j := TerminatedEnd(lines, i), BlockEnd(lines, i + 1, indent);
    SetDisabledIsSwitch(lines, id, first);
    if block == [] {
      OwnBlock(lines, id);
      assert SwitchBlock(block, indent, first) == block;
    } else {
      Pieces(lines, id);
      TailOfSlice(lines, i, e, j);
      IndentedFront(lines, i, e, j);
      SwitchBlockShape(block, indent, first);
      EditedBlockFound(lines, id, SwitchBlock(block, indent, first));
      EditedBlockEnds(lines, id, SwitchBlock(block, indent, first));
    }
    SetDisabledIsSwitch(TextSetDisabled(lines, id, first).text, id, second);
  }

  /** The source itself, with its own block put in. */
  lemma OwnBlock(lines: seq<Line>, id: string)
    requires FindId(lines, id) < |lines|
    ensures WithBlock(lines, id, BlockOf(lines, id)) == lines
  {
  }

  lemma KeyAndNameApart(indent: string)
    requires AllBlank(indent)
    ensures Apart(KeyTest(ChildIndent(indent), DISABLED_KEY), KeyTest(ChildIndent(indent), "name: "), DisabledLine(indent))
  {
    DisabledTrueIsDisabled(DisabledLine(indent), ChildIndent(indent));
    forall line: Line | HasKey(line, ChildIndent(indent), DISABLED_KEY)
      ensures !HasKey(line, ChildIndent(indent), "name: ")
    {
      assert line.content[0] == 'd';
    }
  }

  /** Switching an entry off and on again gives back the source exactly when the edits come to an end
      and the block carried no disabled key before. */
  lemma OffAndOn(lines: seq<Line>, id: string)
    requires FindId(lines, id) < |lines|
    ensures var block := BlockOf(lines, id);
            var off := TextSetDisabled(lines, id, true);
            off.Edited? && TextSetDisabled(off.text, id, false) == Edited(lines)
            <==> && ScanEnds(lines, id)
                 && First(KeyTest(ChildIndent(lines[FindId(lines, id)].indent), DISABLED_KEY), block) == |block|
  {
    var indent := lines[FindId(lines, id)].indent;
    var block := BlockOf(lines, id);
    DivergesExactly(lines, id, true);
    if ScanEnds(lines, id) {
      SwitchTwice(lines, id, true, false);
      KeyAndNameApart(indent);
      OnAndOff(KeyTest(ChildIndent(indent), DISABLED_KEY), KeyTest(ChildIndent(indent), "name: "), DisabledLine(indent), block);
      OwnBlock(lines, id);
      WithBlockInjective(lines, id, SwitchBlock(SwitchBlock(block, indent, true), indent, false), block);
    }
  }

  /** Switching off a second time changes nothing, exactly when the edits come to an end and what the
      first one left of the block's disabled keys, if anything, stood below its name. */
  lemma OffTwice(lines: seq<Line>, id: string)
    requires FindId(lines, id) < |lines|
    ensures var indent := lines[FindId(lines, id)].indent;
            var cleared := DropFirst(KeyTest(ChildIndent(indent), DISABLED_KEY), BlockOf(lines, id));
            var k := First(KeyTest(ChildIndent(indent), DISABLED_KEY), cleared);
            var off := TextSetDisabled(lines, id, true);
            off.Edited? && TextSetDisabled(off.text, id, true) == off
            <==> && ScanEnds(lines, id)
                 && (k == |cleared| || First(KeyTest(ChildIndent(indent), "name: "), cleared) < k)
  {
    var indent := lines[FindId(lines, id)].indent;
    var block := BlockOf(lines, id);
    DivergesExactly(lines, id, true);
    if ScanEnds(lines, id) {
      SwitchTwice(lines, id, true, true);
      SetDisabledIsSwitch(lines, id, true);
      KeyAndNameApart(indent);
      OnAgain(KeyTest(ChildIndent(indent), DISABLED_KEY), KeyTest(ChildIndent(indent), "name: "), DisabledLine(indent),
              DropFirst(KeyTest(ChildIndent(indent), DISABLED_KEY), block));
      WithBlockInjective(lines, id, SwitchBlock(block, indent, true), SwitchBlock(SwitchBlock(block, indent, true), indent, true));
    }
  }

  lemma WithBlockInjective(lines: seq<Line>, id: string, a: seq<Line>, b: seq<Line>)
    requires FindId(lines, id) < |lines|
    ensures WithBlock(lines, id, a) == WithBlock(lines, id, b) <==> a == b
  {
    var i := FindId(lines, id);
    var post := lines[TerminatedEnd(lines, i)..];
    if WithBlock(lines, id, a) == WithBlock(lines, id, b) {
      assert |a| == |b|;
      assert a == WithBlock(lines, id, a)[i..i + |a|];
      assert b == WithBlock(lines, id, b)[i..i + |b|];
    }
  }
}
