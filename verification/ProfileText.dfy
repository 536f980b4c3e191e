/** The profile file as text. Entries are appended, switched and removed by editing lines, and read
    back by a pattern over adjacent lines. A source is the sequence of its lines, that is, the text
    split at line feeds: the last line is the one without a terminator. A line is kept as its
    leading blanks and the rest. */
module ProfileText {
  import opened Wrappers
  import opened InstallPlan
  import opened Marketplace
  import opened Edits

  predicate IsBlank(c: char) {
    c == ' ' || c == '\t'
  }

  predicate AllBlank(s: string) {
    forall k :: 0 <= k < |s| ==> IsBlank(s[k])
  }

  datatype RawLine = RawLine(indent: string, content: string)

  type Line = line: RawLine | AllBlank(line.indent) && (line.content != "" ==> !IsBlank(line.content[0]))
    witness RawLine("", "")

  const EMPTY_LINE: Line := RawLine("", "")

  // ----- the shape of a line

  predicate IsItem(line: Line) {
    "- " <= line.content
  }

  /** Characters up to the first blank. */
  function Word(s: string): (r: string)
    ensures |r| <= |s|
  {
    if s == "" || IsBlank(s[0]) then "" else [s[0]] + Word(s[1..])
  }

  /** The id of a line `- id: <id>`, which may end in blanks. */
  function IdOf(line: Line): Option<string> {
    if "- id: " <= line.content then
      var id := Word(line.content[6..]);
      if id != "" && AllBlank(line.content[6 + |id|..]) then Some(id) else None
    else None
  }

  datatype Name = Name(packageName: string, closesLine: bool)

  function UpToQuote(s: string): (r: string)
    ensures |r| <= |s|
  {
    if s == "" || s[0] == '"' then "" else [s[0]] + UpToQuote(s[1..])
  }

  const NAME_KEY := "name: \""
  const DISABLED_KEY := "disabled: "
  const DISABLED_TRUE := "disabled: true"

  /** The package of an indented line `name: "<package>"`. */
  function NameOf(line: Line): Option<Name> {
    if line.indent != "" && NAME_KEY <= line.content then
      var packageName := UpToQuote(line.content[|NAME_KEY|..]);
      var close := |NAME_KEY| + |packageName|;
      if packageName != "" && close < |line.content|
      then Some(Name(packageName, close + 1 == |line.content|))
      else None
    else None
  }

  // ----- these shapes, as the patterns of the source say them

  predicate NoBlank(s: string) {
    forall k :: 0 <= k < |s| ==> !IsBlank(s[k])
  }

  lemma {:induction false} WordExactly(s: string)
    ensures var r := Word(s); s[..|r|] == r && NoBlank(r) && (|r| < |s| ==> IsBlank(s[|r|]))
  {
    if s != "" && !IsBlank(s[0]) {
      WordExactly(s[1..]);
      var r := Word(s);
      assert s[..|r|] == [s[0]] + s[1..][..|r| - 1];
    }
  }

  lemma {:induction false} WordOf(word: string, rest: string)
    requires NoBlank(word) && (rest != "" ==> IsBlank(rest[0]))
    ensures Word(word + rest) == word
  {
    if word == "" {
      assert word + rest == rest;
    } else {
      assert (word + rest)[1..] == word[1..] + rest;
      WordOf(word[1..], rest);
    }
  }

  ghost predicate IdLine(line: Line, id: string) {
    exists blanks :: line.content == "- id: " + id + blanks && AllBlank(blanks)
  }

  lemma IdLineIsRead(line: Line, id: string)
    requires id != "" && NoBlank(id) && IdLine(line, id)
    ensures IdOf(line) == Some(id)
  {
    var blanks :| line.content == "- id: " + id + blanks && AllBlank(blanks);
    assert line.content == "- id: " + (id + blanks);
    assert line.content[6..] == id + blanks && line.content[6 + |id|..] == blanks;
    WordOf(id, blanks);
  }

  /** A line has an id exactly if it is `- id: `, the id, which is not empty and holds no blank, and
      blanks. */
  lemma IdExactly(line: Line, id: string)
    ensures IdOf(line) == Some(id) <==> id != "" && NoBlank(id) && IdLine(line, id)
  {
    if IdOf(line) == Some(id) {
      WordExactly(line.content[6..]);
      assert line.content == "- id: " + id + line.content[6 + |id|..];
    }
    if id != "" && NoBlank(id) && IdLine(line, id) {
      IdLineIsRead(line, id);
    }
  }

  lemma {:induction false} UpToQuoteExactly(s: string)
    ensures var r := UpToQuote(s); s[..|r|] == r && '"' !in r && (|r| < |s| ==> s[|r|] == '"')
  {
    if s != "" && s[0] != '"' {
      UpToQuoteExactly(s[1..]);
      var r := UpToQuote(s);
      assert s[..|r|] == [s[0]] + s[1..][..|r| - 1];
    }
  }

  lemma {:induction false} UpToQuoteOf(word: string, rest: string)
    requires '"' !in word && rest != "" && rest[0] == '"'
    ensures UpToQuote(word + rest) == word
  {
    if word == "" {
      assert word + rest == rest;
    } else {
      assert (word + rest)[1..] == word[1..] + rest;
      UpToQuoteOf(word[1..], rest);
    }
  }

  ghost predicate NameLine(line: Line, packageName: string, rest: string) {
    line.indent != "" && line.content == NAME_KEY + packageName + "\"" + rest
  }

  lemma NameLineIsRead(line: Line, packageName: string, rest: string)
    requires packageName != "" && '"' !in packageName && NameLine(line, packageName, rest)
    ensures NameOf(line) == Some(Name(packageName, rest == ""))
  {
    var tail := packageName + ("\"" + rest);
    assert line.content == NAME_KEY + tail;
    assert line.content[|NAME_KEY|..] == tail;
    UpToQuoteOf(packageName, "\"" + rest);
  }

  lemma NameIsLine(line: Line, packageName: string, closesLine: bool) returns (rest: string)
    requires NameOf(line) == Some(Name(packageName, closesLine))
    ensures packageName != "" && '"' !in packageName
    ensures NameLine(line, packageName, rest) && (closesLine <==> rest == "")
  {
    var tail := line.content[|NAME_KEY|..];
    UpToQuoteExactly(tail);
    rest := tail[|packageName| + 1..];
    assert tail == packageName + "\"" + rest;
    assert line.content == NAME_KEY + tail;
  }

  /** A line has a name exactly if it is indented and is `name: "`, the package, which is not empty and
      holds no quote, a quote, and anything; it is closed if that is nothing. */
  lemma NameExactly(line: Line, packageName: string, closesLine: bool)
    ensures NameOf(line) == Some(Name(packageName, closesLine)) <==>
      packageName != "" && '"' !in packageName
      && exists rest :: NameLine(line, packageName, rest) && (closesLine <==> rest == "")
  {
    if NameOf(line) == Some(Name(packageName, closesLine)) {
      var _ := NameIsLine(line, packageName, closesLine);
    }
    if packageName != "" && '"' !in packageName {
      forall rest | NameLine(line, packageName, rest)
        ensures NameOf(line) == Some(Name(packageName, rest == ""))
      {
        NameLineIsRead(line, packageName, rest);
      }
    }
  }

  // ----- the reader

  /** The entry whose id line is line k: the name is on the next line, and the disabled key counts
      only directly below the name, at the same indent. */
  function EntryAt(lines: seq<Line>, k: nat): Option<ProfileEntry> {
    if k + 1 < |lines| && IdOf(lines[k]).Some? && NameOf(lines[k + 1]).Some? then
      var name := NameOf(lines[k + 1]).value;
      Some(ProfileEntry(IdOf(lines[k]).value, name.packageName,
                        name.closesLine && k + 2 < |lines|
                        && lines[k + 2].indent == lines[k + 1].indent && DISABLED_TRUE <= lines[k + 2].content))
    else None
  }

  function Found(entry: Option<ProfileEntry>): seq<ProfileEntry> {
    if entry.Some? then [entry.value] else []
  }

  function Read(lines: seq<Line>): seq<ProfileEntry> {
    if lines == [] then [] else Found(EntryAt(lines, 0)) + Read(lines[1..])
  }

  // ----- the editor

  function IdTest(id: string): Line -> bool {
    (line: Line) => IdOf(line) == Some(id)
  }

  function EndTest(indent: string): Line -> bool {
    (line: Line) => EndsBlock(line, indent)
  }

  /** A line at exactly this indent that starts with this key. */
  predicate HasKey(line: Line, indent: string, key: string) {
    line.indent == indent && key <= line.content
  }

  function KeyTest(indent: string, key: string): Line -> bool {
    (line: Line) => HasKey(line, indent, key)
  }

  /** The first line with this id, or the number of lines. */
  function FindId(lines: seq<Line>, id: string): (i: nat)
    ensures i <= |lines|
  {
    First(IdTest(id), lines)
  }

  /** A line that ends the block of an item: it is outdented, or the next item at the same indent. */
  predicate EndsBlock(line: Line, indent: string) {
    && line.content != ""
    && (|line.indent| < |indent| || (line.indent == indent && IsItem(line)))
  }

  function BlockEnd(lines: seq<Line>, from: nat, indent: string): (j: nat)
    requires from <= |lines|
    ensures from <= j <= |lines|
  {
    from + First(EndTest(indent), lines[from..])
  }

  function ChildIndent(indent: string): string {
    indent + "  "
  }

  /** Where the terminated lines of the block that starts at line i end. */
  function TerminatedEnd(lines: seq<Line>, i: nat): (e: nat)
    requires i < |lines|
    ensures i <= e < |lines|
  {
    var j := BlockEnd(lines, i + 1, lines[i].indent);
    if j < |lines| then j else |lines| - 1
  }

  function DisabledLine(indent: string): Line
    requires AllBlank(indent)
  {
    RawLine(ChildIndent(indent), DISABLED_TRUE)
  }

  /** The terminated lines of the block of an item at this indent, switched off or on. */
  function SwitchBlock(block: seq<Line>, indent: string, disabled: bool): seq<Line>
    requires AllBlank(indent)
  {
    Switch(KeyTest(ChildIndent(indent), DISABLED_KEY), KeyTest(ChildIndent(indent), "name: "),
           DisabledLine(indent), block, disabled)
  }

  // ----- the loop that looks for the end of a block

  /** The line that the pattern finds when it searches from this line on: the first one that is not
      blank, or the number of lines. */
  function NextLine(lines: seq<Line>, from: nat): (k: nat)
    requires from <= |lines|
    ensures from <= k <= |lines|
  {
    from + First((line: Line) => line.content != "", lines[from..])
  }

  /** Where the search goes on after a match. The match is what blanks the line starts with, and the
      search goes on behind it; an empty match leaves it in front of the same line. */
  function Resume(lines: seq<Line>, k: nat): nat
    requires k < |lines|
  {
    if lines[k].indent == "" then k else k + 1
  }

  /** Where the loop finds the end of the block within n rounds; None if it has not ended by then. */
  function Scan(lines: seq<Line>, from: nat, indent: string, n: nat): Option<nat>
    requires from <= |lines|
    decreases n
  {
    if n == 0 then None
    else
      var k := NextLine(lines, from);
      if k == |lines| || EndsBlock(lines[k], indent) then Some(k)
      else Scan(lines, Resume(lines, k), indent, n - 1)
  }

  /** The loop ends. */
  ghost predicate Halts(lines: seq<Line>, from: nat, indent: string)
    requires from <= |lines|
  {
    exists n: nat :: Scan(lines, from, indent, n).Some?
  }

  /** No line but blank ones stands at the left margin. */
  predicate Indented(lines: seq<Line>) {
    forall k :: 0 <= k < |lines| ==> lines[k].content != "" ==> lines[k].indent != ""
  }

  /** Whatever the loop finds is the end of the block, and it ends exactly if nothing in the block stands
      at the left margin. */
  lemma ScanExactly(lines: seq<Line>, from: nat, indent: string)
    requires from <= |lines|
    ensures Halts(lines, from, indent) <==> Indented(lines[from..BlockEnd(lines, from, indent)])
    ensures forall n: nat :: Scan(lines, from, indent, n).Some? ==>
              Scan(lines, from, indent, n) == Some(BlockEnd(lines, from, indent))
  {
    var j := BlockEnd(lines, from, indent);
    if Indented(lines[from..j]) {
      ScanReaches(lines, from, indent, j);
    } else {
      var t :| 0 <= t < j - from && lines[from..j][t].content != "" && lines[from..j][t].indent == "";
      forall n: nat
        ensures Scan(lines, from, indent, n).None?
      {
        ScanIsTrapped(lines, from, indent, from + t, n);
      }
    }
    forall n: nat | Scan(lines, from, indent, n).Some?
      ensures Scan(lines, from, indent, n) == Some(j)
    {
      ScanFindsEnd(lines, from, indent, j, n);
    }
  }

  /** In terms of the entry: the loop ends exactly if the entry is indented itself, or nothing in its
      block stands at the left margin. Under an entry at the left margin, a line there that is no
      item, a comment or a top-level key, is matched over and over again. */
  lemma EndsUnlessAtMargin(lines: seq<Line>, from: nat, indent: string)
    requires from <= |lines|
    ensures Halts(lines, from, indent) <==>
      indent != "" || forall k :: from <= k < BlockEnd(lines, from, indent) && lines[k].content != "" ==> lines[k].indent != ""
  {
    var j := BlockEnd(lines, from, indent);
    ScanExactly(lines, from, indent);
    forall k | from <= k < j
      ensures lines[k] == lines[from..j][k - from] && !EndsBlock(lines[k], indent)
    {
      assert lines[k] == lines[from..][k - from];
    }
  }

  lemma NextLineInBlock(lines: seq<Line>, from: nat, indent: string, j: nat)
    requires from <= j <= |lines| && (forall k :: from <= k < j ==> !EndsBlock(lines[k], indent))
    requires j < |lines| ==> EndsBlock(lines[j], indent)
    ensures var k := NextLine(lines, from);
            && k <= j && (k < |lines| ==> lines[k].content != "")
            && (k == j <==> k == |lines| || EndsBlock(lines[k], indent))
            && forall m :: from <= m < k ==> lines[m].content == ""
  {
    var k := NextLine(lines, from);
    assert k < |lines| ==> lines[k] == lines[from..][k - from];
    forall m | from <= m < k
      ensures lines[m].content == ""
    {
      assert lines[m] == lines[from..][m - from];
    }
  }

  lemma EndOfBlock(lines: seq<Line>, from: nat, indent: string)
    requires from <= |lines|
    ensures var j := BlockEnd(lines, from, indent);
            (forall k :: from <= k < j ==> !EndsBlock(lines[k], indent)) && (j < |lines| ==> EndsBlock(lines[j], indent))
  {
    var j := BlockEnd(lines, from, indent);
    forall k | from <= k < j
      ensures !EndsBlock(lines[k], indent)
    {
      assert lines[k] == lines[from..][k - from];
    }
    assert j < |lines| ==> lines[j] == lines[from..][j - from];
  }

  lemma {:induction false} ScanReachesFrom(lines: seq<Line>, from: nat, indent: string, j: nat) returns (n: nat)
    requires from <= j <= |lines| && (forall k :: from <= k < j ==> !EndsBlock(lines[k], indent))
    requires j < |lines| ==> EndsBlock(lines[j], indent)
    requires forall k :: from <= k < j && lines[k].content != "" ==> lines[k].indent != ""
    ensures Scan(lines, from, indent, n) == Some(j)
    decreases j - from
  {
    NextLineInBlock(lines, from, indent, j);
    var k := NextLine(lines, from);
    if k < j {
      var more := ScanReachesFrom(lines, k + 1, indent, j);
      n := more + 1;
    } else {
      n := 1;
    }
  }

  lemma ScanReaches(lines: seq<Line>, from: nat, indent: string, j: nat)
    requires from <= |lines| && j == BlockEnd(lines, from, indent) && Indented(lines[from..j])
    ensures Halts(lines, from, indent)
  {
    EndOfBlock(lines, from, indent);
    forall k | from <= k < j && lines[k].content != ""
      ensures lines[k].indent != ""
    {
      assert lines[k] == lines[from..j][k - from];
    }
    var _ := ScanReachesFrom(lines, from, indent, j);
  }

  lemma {:induction false} ScanIsTrappedFrom(lines: seq<Line>, from: nat, indent: string, t: nat, n: nat)
    requires from <= t < |lines| && lines[t].content != "" && lines[t].indent == ""
    requires forall k :: from <= k <= t ==> !EndsBlock(lines[k], indent)
    ensures Scan(lines, from, indent, n).None?
    decreases n
  {
    if n > 0 {
      var k := NextLine(lines, from);
      assert k < |lines| ==> lines[k] == lines[from..][k - from];
      assert lines[from..][t - from] == lines[t];
      assert k <= t;
      ScanIsTrappedFrom(lines, Resume(lines, k), indent, t, n - 1);
    }
  }

  lemma ScanIsTrapped(lines: seq<Line>, from: nat, indent: string, t: nat, n: nat)
    requires from <= |lines| && from <= t < BlockEnd(lines, from, indent) && lines[t].content != "" && lines[t].indent == ""
    ensures Scan(lines, from, indent, n).None?
  {
    EndOfBlock(lines, from, indent);
    ScanIsTrappedFrom(lines, from, indent, t, n);
  }

  lemma {:induction false} ScanFindsEndFrom(lines: seq<Line>, from: nat, indent: string, j: nat, n: nat)
    requires from <= j <= |lines| && (forall k :: from <= k < j ==> !EndsBlock(lines[k], indent))
    requires j < |lines| ==> EndsBlock(lines[j], indent)
    requires Scan(lines, from, indent, n).Some?
    ensures Scan(lines, from, indent, n) == Some(j)
    decreases n
  {
    NextLineInBlock(lines, from, indent, j);
    var k := NextLine(lines, from);
    if k < j {
      ScanFindsEndFrom(lines, Resume(lines, k), indent, j, n - 1);
    }
  }

  lemma ScanFindsEnd(lines: seq<Line>, from: nat, indent: string, j: nat, n: nat)
    requires from <= |lines| && j == BlockEnd(lines, from, indent) && Scan(lines, from, indent, n).Some?
    ensures Scan(lines, from, indent, n) == Some(j)
  {
    EndOfBlock(lines, from, indent);
    ScanFindsEndFrom(lines, from, indent, j, n);
  }

  // ----- the edits

  /** What an edit leads to: an error when the entry is not found, a loop that never ends, or a text. */
  datatype Edit = NotFound | Diverges | Edited(text: seq<Line>)

  ghost function TextSetDisabled(lines: seq<Line>, id: string, disabled: bool): Edit {
    var i := FindId(lines, id);
    if i == |lines| then NotFound
    else if !Halts(lines, i + 1, lines[i].indent) then Diverges
    else
      var e := TerminatedEnd(lines, i);
      Edited(lines[..i] + SwitchBlock(lines[i..e], lines[i].indent, disabled) + lines[e..])
  }

  ghost function TextRemove(lines: seq<Line>, id: string): Edit {
    var i := FindId(lines, id);
    if i == |lines| then NotFound
    else if !Halts(lines, i + 1, lines[i].indent) then Diverges
    else
      var j := BlockEnd(lines, i + 1, lines[i].indent);
      Edited(lines[..i] + if j < |lines| then lines[j..] else [EMPTY_LINE])
  }

  /** The block of this id can be found: nothing in it stands at the left margin. */
  predicate ScanEnds(lines: seq<Line>, id: string)
    requires FindId(lines, id) < |lines|
  {
    var i := FindId(lines, id);
    Indented(lines[i + 1..BlockEnd(lines, i + 1, lines[i].indent)])
  }

  /** The two edits never return on exactly the same texts. */
  lemma DivergesExactly(lines: seq<Line>, id: string, disabled: bool)
    requires FindId(lines, id) < |lines|
    ensures TextSetDisabled(lines, id, disabled).Diverges? <==> !ScanEnds(lines, id)
    ensures TextRemove(lines, id).Diverges? <==> !ScanEnds(lines, id)
  {
    var i := FindId(lines, id);
    ScanExactly(lines, i + 1, lines[i].indent);
  }

  /** For example a comment at the left margin, below an entry there: neither a toggle nor an uninstall
      of the entry ever comes to an end. */
  lemma CommentBelowEntry(id: string, disabled: bool, idLine: Line, nameLine: Line, comment: Line)
    requires IdOf(idLine) == Some(id) && idLine.indent == "" && nameLine.indent != ""
    requires comment.indent == "" && comment.content != "" && !IsItem(comment)
    ensures var lines := [idLine, nameLine, comment, EMPTY_LINE];
            TextSetDisabled(lines, id, disabled) == Diverges && TextRemove(lines, id) == Diverges
  {
    var lines := [idLine, nameLine, comment, EMPTY_LINE];
    FirstIs(IdTest(id), lines, 0);
    assert lines[1..] == [nameLine, comment, EMPTY_LINE];
    FirstIs(EndTest(""), lines[1..], 3);
    assert lines[1..4][1] == comment;
    DivergesExactly(lines, id, disabled);
  }

  /** What an install needs to know of a plugin besides its catalogue entry: the printed
      configuration, one line of JSON, and whether the entry is a group. */
  datatype Printed = Printed(config: string, group: bool)

  function EntryLines(plugin: Plugin, printed: Printed, indent: string): seq<Line>
    requires AllBlank(indent)
  {
    var child := ChildIndent(indent);
    [RawLine(indent, "- id: " + EntryId(plugin)),
     RawLine(child, NAME_KEY + plugin.packageName + "\"")]
    + (if printed.group then [RawLine(child, "group: true")] else [])
    + [RawLine(child, "config: " + printed.config)]
  }

  predicate OccursAt(text: string, part: string, k: nat) {
    k + |part| <= |text| && text[k..k + |part|] == part
  }

  predicate Contains(text: string, part: string) {
    exists k :: 0 <= k <= |text| && OccursAt(text, part, k)
  }

  /** The text names the package somewhere. The key starts with a letter, so it cannot start in the
      leading blanks of a line. */
  predicate Mentions(lines: seq<Line>, packageName: string) {
    exists k :: 0 <= k < |lines| && Contains(lines[k].content, NAME_KEY + packageName + "\"")
  }

  function TrimText(s: string): (r: string)
    ensures r <= s
  {
    if s != "" && IsBlank(Last(s)) then TrimText(s[..|s| - 1]) else s
  }

  function TrimLine(line: Line): Line {
    var content := TrimText(line.content);
    if content == "" then EMPTY_LINE else RawLine(line.indent, content)
  }

  /** The source without its trailing white space. */
  function TrimEnd(lines: seq<Line>): (r: seq<Line>)
    ensures r != []
  {
    if lines == [] then [EMPTY_LINE]
    else
      var last := TrimLine(Last(lines));
      if last == EMPTY_LINE && |lines| > 1 then TrimEnd(lines[..|lines| - 1]) else lines[..|lines| - 1] + [last]
  }

  function TextAppend(lines: seq<Line>, plugin: Plugin, printed: Printed, anchor: Option<string>): seq<Line> {
    if Mentions(lines, plugin.packageName) then lines
    else
      var i := if anchor.None? then |lines| else FindId(lines, anchor.value);
      if i == |lines| then TrimEnd(lines) + EntryLines(plugin, printed, "") + [EMPTY_LINE]
      else lines[..i] + EntryLines(plugin, printed, lines[i].indent) + lines[i..]
  }
}
