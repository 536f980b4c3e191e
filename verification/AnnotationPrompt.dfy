/** The prompt that carries annotations: quoted passages with notes between a header and a footer,
    then an instruction, then the question; and the parser that finds question and count again. */
module AnnotationPrompt {
  import opened Wrappers
  import Text

  const HEADER := "[Pi Harness annotations]"
  const FOOTER := "[/Pi Harness annotations]"
  const MARKER := "\n\n提问："
  const NOTE_LABEL := "   批注："
  const INSTRUCTION := "\n\n请逐条回应 "

  datatype Annotation = Annotation(id: int, quote: string, note: string)

  datatype Parsed = Parsed(question: string, count: nat)

  // ----- searching

  predicate OccursAt(text: string, part: string, i: int) {
    0 <= i && i + |part| <= |text| && text[i..i + |part|] == part
  }

  /** `text.lastIndexOf(part, from)`. */
  function LastIndexOf(text: string, part: string, from: int): (i: int)
    ensures -1 <= i && (i >= 0 ==> i <= from && OccursAt(text, part, i))
    ensures forall k :: i < k <= from ==> !OccursAt(text, part, k)
    decreases from + 1
  {
    if from < 0 then -1 else if OccursAt(text, part, from) then from else LastIndexOf(text, part, from - 1)
  }

  /** `text.indexOf(part, from)`. */
  function IndexOf(text: string, part: string, from: nat): (i: int)
    ensures -1 <= i && (i >= 0 ==> from <= i && OccursAt(text, part, i))
    ensures forall k :: from <= k && (i >= 0 ==> k < i) ==> !OccursAt(text, part, k)
    decreases |text| - from
  {
    if from > |text| then -1 else if OccursAt(text, part, from) then from else IndexOf(text, part, from + 1)
  }

  // ----- printer and parser

  function Digits(n: nat): (s: string)
    ensures s != [] && forall c :: c in s ==> '0' <= c <= '9'
  {
    (if n < 10 then "" else Digits(n / 10)) + [('0' as int + n % 10) as char]
  }

  function IdText(id: int): string {
    if id < 0 then "-" + Digits(-id) else Digits(id)
  }

  function LinesOf(a: Annotation): seq<string> {
    [IdText(a.id) + ". " + a.quote] + if a.note == "" then [] else [NOTE_LABEL + a.note]
  }

  function AllLines(annotations: seq<Annotation>): seq<string> {
    if annotations == [] then [] else LinesOf(annotations[0]) + AllLines(annotations[1..])
  }

  function Join(parts: seq<string>, separator: string): string {
    if parts == [] then ""
    else if |parts| == 1 then parts[0]
    else parts[0] + separator + Join(parts[1..], separator)
  }

  function Mentions(annotations: seq<Annotation>): seq<string> {
    seq(|annotations|, i requires 0 <= i < |annotations| => "Annotation " + IdText(annotations[i].id) + "：")
  }

  /** `formatAnnotationPrompt`. */
  function Format(annotations: seq<Annotation>, question: string): string {
    HEADER + "\n" + Join(AllLines(annotations), "\n") + "\n" + FOOTER
    + INSTRUCTION + Join(Mentions(annotations), "、") + MARKER + Text.Trim(question)
  }

  predicate Digit(c: char) {
    '0' <= c <= '9'
  }

  /** The line looks like a numbered item: digits, a full stop and white space. */
  predicate Numbered(line: string) {
    line != "" && Digit(line[0]) && NumberedFrom(line[1..])
  }

  predicate NumberedFrom(rest: string) {
    if rest != "" && Digit(rest[0]) then NumberedFrom(rest[1..])
    else |rest| >= 2 && rest[0] == '.' && Text.White(rest[1])
  }

  function CountNumbered(lines: seq<string>): nat {
    if lines == [] then 0 else (if Numbered(lines[0]) then 1 else 0) + CountNumbered(lines[1..])
  }

  /** How many lines of a text look numbered. */
  function NumberedIn(text: string): nat {
    CountNumbered(Text.Split('\n', text))
  }

  /** `parseAnnotationPrompt`, for any header, footer and marker. */
  function ParseWith(text: string, headerText: string, footerText: string, markerText: string): Parsed {
    var marker := LastIndexOf(text, markerText, |text|);
    if marker < 0 then Parsed(text, 0)
    else
      var header := LastIndexOf(text, headerText, marker);
      var footer := IndexOf(text, footerText, if header < 0 then 0 else header);
      if header < 0 || footer < header then Parsed(text, 0)
      else
        var start := header + |headerText|;
        var block := if start <= footer then text[start..footer] else "";
        Parsed(text[marker + |markerText|..], NumberedIn(block))
  }

  function Parse(text: string): Parsed {
    ParseWith(text, HEADER, FOOTER, MARKER)
  }

  // ----- where the parts occur

  ghost predicate Free(text: string, part: string) {
    forall k :: !OccursAt(text, part, k)
  }

  /** Like the header and the footer: one opening bracket, in front, and no line break. */
  ghost predicate Bracketed(part: string) {
    |part| >= 2 && part[0] == '[' && forall i :: 0 < i < |part| ==> part[i] != '[' && part[i] != '\n'
  }

  lemma OccursChar(text: string, part: string, k: int, j: int)
    ensures OccursAt(text, part, k) && 0 <= j < |part| ==> text[k + j] == part[j]
  {
    if OccursAt(text, part, k) && 0 <= j < |part| {
      assert text[k..k + |part|][j] == part[j];
    }
  }

  /** An occurrence in a middle piece that ends with a line break lies within the piece. */
  lemma OccursWithin(before: string, b: string, after: string, part: string, k: int)
    requires '\n' !in part && b != "" && Last(b) == '\n' && |before| <= k < |before + b|
    ensures OccursAt(before + b + after, part, k) ==> OccursAt(b, part, k - |before|)
  {
    var text, j := before + b + after, k - |before|;
    OccursChar(text, part, k, |b| - 1 - j);
    assert text[|before| + |b| - 1] == '\n';
    if OccursAt(text, part, k) {
      assert j + |part| <= |b|;
      assert text[k..k + |part|] == b[j..j + |part|];
    }
  }

  lemma OccursInLines(a: string, b: string, part: string, k: int)
    requires '\n' !in part && part != ""
    ensures OccursAt(a + "\n" + b, part, k) ==> OccursAt(a, part, k) || OccursAt(b, part, k - |a| - 1)
  {
    var text := a + "\n" + b;
    OccursChar(text, part, k, |a| - k);
    if OccursAt(text, part, k) {
      if k <= |a| {
        assert text[|a|] == '\n';
        assert k + |part| <= |a|;
        assert text[k..k + |part|] == a[k..k + |part|];
      } else {
        assert text[k..k + |part|] == b[k - |a| - 1..k - |a| - 1 + |part|];
      }
    }
  }

  lemma FreeAcrossLines(a: string, b: string, part: string)
    requires Free(a, part) && Free(b, part) && '\n' !in part && part != ""
    ensures Free(a + "\n" + b, part)
  {
    forall k
      ensures !OccursAt(a + "\n" + b, part, k)
    {
      OccursInLines(a, b, part, k);
    }
  }

  lemma OccursBehind(a: string, b: string, part: string, k: int)
    requires part != "" && part[0] !in a
    ensures OccursAt(a + b, part, k) ==> OccursAt(b, part, k - |a|)
  {
    OccursChar(a + b, part, k, 0);
    if OccursAt(a + b, part, k) {
      assert k >= |a|;
      assert (a + b)[k..k + |part|] == b[k - |a|..k - |a| + |part|];
    }
  }

  lemma FreeAfterPrefix(a: string, b: string, part: string)
    requires part != "" && part[0] !in a && Free(b, part)
    ensures Free(a + b, part)
  {
    forall k
      ensures !OccursAt(a + b, part, k)
    {
      OccursBehind(a, b, part, k);
    }
  }

  /** Nothing bracketed begins inside a bracketed text, behind its first character. */
  lemma NotInside(before: string, outer: string, after: string, part: string, k: int)
    requires Bracketed(outer) && Bracketed(part) && |before| < k < |before + outer|
    ensures !OccursAt(before + outer + after, part, k)
  {
    var text := before + outer + after;
    OccursChar(text, part, k, 0);
    assert text[k] == outer[k - |before|];
  }

  lemma NotAt(before: string, outer: string, after: string, part: string)
    requires Bracketed(outer) && Bracketed(part) && outer[1] != part[1]
    ensures !OccursAt(before + outer + after, part, |before|)
  {
    var text := before + outer + after;
    OccursChar(text, part, |before|, 1);
    assert text[|before| + 1] == outer[1];
  }

  lemma NotIn(before: string, plain: string, after: string, part: string, k: int)
    requires Bracketed(part) && '[' !in plain && |before| <= k < |before + plain|
    ensures !OccursAt(before + plain + after, part, k)
  {
    var text := before + plain + after;
    OccursChar(text, part, k, 0);
    assert text[k] == plain[k - |before|];
  }

  lemma NotInBlock(before: string, b: string, after: string, part: string, k: int)
    requires '\n' !in part && b != "" && Last(b) == '\n' && Free(b, part) && |before| <= k < |before + b|
    ensures !OccursAt(before + b + after, part, k)
  {
    OccursWithin(before, b, after, part, k);
  }

  /** Between the beginning and the question, the header stands only at the beginning. */
  lemma HeaderOnlyInFront(header: string, b: string, footer: string, c: string, rest: string, k: int)
    requires Bracketed(header) && Bracketed(footer) && header[1] != footer[1]
    requires b != "" && Last(b) == '\n' && Free(b, header) && '[' !in c
    requires 0 < k < |header + b + footer + c|
    ensures !OccursAt(header + b + footer + c + rest, header, k)
  {
    var text := header + b + footer + c + rest;
    if k < |header| {
      assert text == "" + header + (b + footer + c + rest);
      NotInside("", header, b + footer + c + rest, header, k);
    } else if k < |header + b| {
      assert text == header + b + (footer + c + rest);
      NotInBlock(header, b, footer + c + rest, header, k);
    } else if k < |header + b + footer| {
      assert text == (header + b) + footer + (c + rest);
      if k == |header + b| {
        NotAt(header + b, footer, c + rest, header);
      } else {
        NotInside(header + b, footer, c + rest, header, k);
      }
    } else {
      assert text == (header + b + footer) + c + rest;
      NotIn(header + b + footer, c, rest, header, k);
    }
  }

  lemma FooterNotBefore(header: string, b: string, rest: string, footer: string, k: int)
    requires Bracketed(header) && Bracketed(footer) && header[1] != footer[1]
    requires b != "" && Last(b) == '\n' && Free(b, footer)
    requires 0 <= k < |header + b|
    ensures !OccursAt(header + b + rest, footer, k)
  {
    var text := header + b + rest;
    if k < |header| {
      assert text == "" + header + (b + rest);
      if k == 0 {
        NotAt("", header, b + rest, footer);
      } else {
        NotInside("", header, b + rest, footer, k);
      }
    } else {
      NotInBlock(header, b, rest, footer, k);
    }
  }

  /** Behind its place in front of the question, the marker occurs only inside the question. */
  lemma MarkerOnlyInQuestion(p: string, question: string, k: int)
    requires k > |p|
    ensures OccursAt(p + MARKER + question, MARKER, k) ==> OccursAt(question, MARKER, k - |p| - |MARKER|)
  {
    var text := p + MARKER + question;
    var d := k - |p|;
    OccursChar(text, MARKER, k, 0);
    OccursChar(text, MARKER, k, 1);
    assert d < |MARKER| ==> text[k] == MARKER[d];
    assert d + 1 < |MARKER| ==> text[k + 1] == MARKER[d + 1];
    if OccursAt(text, MARKER, k) {
      assert d >= |MARKER|;
      assert text[k..k + |MARKER|] == question[d - |MARKER|..d];
    }
  }

  // ----- what is counted

  /** How many lines but the first one look numbered. */
  function Continuations(text: string): nat {
    CountNumbered(Text.Split('\n', text)[1..])
  }

  lemma {:induction false} CountAppended(a: seq<string>, b: seq<string>)
    ensures CountNumbered(a + b) == CountNumbered(a) + CountNumbered(b)
    decreases |a|
  {
    if a == [] {
      assert a + b == b;
    } else {
      CountAppended(a[1..], b);
      assert (a + b)[1..] == a[1..] + b;
    }
  }

  lemma CountAcrossLines(a: string, b: string)
    ensures NumberedIn(a + "\n" + b) == NumberedIn(a) + NumberedIn(b)
  {
    Text.SplitAtSeparator('\n', a, b);
    CountAppended(Text.Split('\n', a), Text.Split('\n', b));
  }

  lemma {:induction false} SplitAfterPrefix(a: string, b: string)
    requires '\n' !in a
    ensures Text.Split('\n', a + b) == [a + Text.Split('\n', b)[0]] + Text.Split('\n', b)[1..]
    decreases |a|
  {
    if a == [] {
      assert a + b == b && a + Text.Split('\n', b)[0] == Text.Split('\n', b)[0];
    } else {
      assert a + b == [a[0]] + (a[1..] + b);
      Text.SplitHead('\n', a[0], a[1..] + b);
      SplitAfterPrefix(a[1..], b);
      var first := Text.Split('\n', b)[0];
      assert [a[0]] + (a[1..] + first) == a + first;
    }
  }

  /** A prefix decides whether the first line looks numbered; the other lines are as they were. */
  lemma CountAfterPrefix(a: string, b: string)
    requires '\n' !in a
    ensures NumberedIn(a + b) == (if Numbered(a + Text.Split('\n', b)[0]) then 1 else 0) + Continuations(b)
  {
    SplitAfterPrefix(a, b);
  }

  lemma {:induction false} DigitsAreNumbered(d: string, rest: string)
    requires forall c :: c in d ==> Digit(c)
    ensures NumberedFrom(d + ". " + rest)
    decreases |d|
  {
    if d == [] {
      assert d + ". " + rest == ". " + rest;
    } else {
      DigitsAreNumbered(d[1..], rest);
      assert (d + ". " + rest)[1..] == d[1..] + ". " + rest;
    }
  }

  lemma ItemIsNumbered(id: int, rest: string)
    ensures Numbered(IdText(id) + ". " + rest) <==> id >= 0
  {
    if id >= 0 {
      var d := Digits(id);
      assert d[0] in d && forall c :: c in d[1..] ==> c in d;
      DigitsAreNumbered(d[1..], rest);
      var line := d + ". " + rest;
      assert line[1..] == d[1..] + ". " + rest && line[0] == d[0];
    } else {
      assert (IdText(id) + ". " + rest)[0] == '-';
    }
  }

  lemma IdTextIsPlain(id: int)
    ensures '[' !in IdText(id) && '\n' !in IdText(id)
  {
  }

  /** The numbered lines that one annotation gives rise to. */
  function NumberedOf(a: Annotation): nat {
    (if a.id >= 0 then 1 else 0) + Continuations(a.quote) + Continuations(a.note)
  }

  function NumberedOfAll(annotations: seq<Annotation>): nat {
    if annotations == [] then 0 else NumberedOf(annotations[0]) + NumberedOfAll(annotations[1..])
  }

  // ----- the block between header and footer

  /** Neither of the two delimiters stands in a quote or a note. */
  ghost predicate Clean(annotations: seq<Annotation>) {
    forall a :: a in annotations ==>
      Free(a.quote, HEADER) && Free(a.quote, FOOTER) && Free(a.note, HEADER) && Free(a.note, FOOTER)
  }

  lemma ItemLine(a: Annotation, part: string)
    requires Bracketed(part) && Free(a.quote, part)
    ensures Free(IdText(a.id) + ". " + a.quote, part)
    ensures NumberedIn(IdText(a.id) + ". " + a.quote) == (if a.id >= 0 then 1 else 0) + Continuations(a.quote)
  {
    IdTextIsPlain(a.id);
    var number := IdText(a.id) + ". ";
    FreeAfterPrefix(number, a.quote, part);
    CountAfterPrefix(number, a.quote);
    ItemIsNumbered(a.id, Text.Split('\n', a.quote)[0]);
  }

  lemma NoteLine(note: string, part: string)
    requires Bracketed(part) && Free(note, part)
    ensures Free(NOTE_LABEL + note, part)
    ensures NumberedIn(NOTE_LABEL + note) == Continuations(note)
  {
    FreeAfterPrefix(NOTE_LABEL, note, part);
    CountAfterPrefix(NOTE_LABEL, note);
  }

  lemma JoinTwice(a: seq<string>, b: seq<string>)
    requires a != [] && b != []
    ensures Join(a + b, "\n") == Join(a, "\n") + "\n" + Join(b, "\n")
    decreases |a|
  {
    if |a| == 1 {
      assert (a + b)[1..] == b;
    } else {
      assert (a + b)[1..] == a[1..] + b;
      JoinTwice(a[1..], b);
    }
  }

  /** The lines of one annotation. */
  lemma OneBlock(a: Annotation, part: string)
    requires Bracketed(part) && Free(a.quote, part) && Free(a.note, part)
    ensures Free(Join(LinesOf(a), "\n"), part) && NumberedIn(Join(LinesOf(a), "\n")) == NumberedOf(a)
  {
    ItemLine(a, part);
    NoteLine(a.note, part);
    var item := IdText(a.id) + ". " + a.quote;
    if a.note == "" {
      assert Text.Split('\n', "")[1..] == [];
      assert LinesOf(a) == [item];
    } else {
      assert LinesOf(a) == [item] + [NOTE_LABEL + a.note];
      JoinTwice([item], [NOTE_LABEL + a.note]);
      FreeAcrossLines(item, NOTE_LABEL + a.note, part);
      CountAcrossLines(item, NOTE_LABEL + a.note);
    }
  }

  lemma {:induction false} WholeBlock(annotations: seq<Annotation>, part: string)
    requires Bracketed(part) && forall a :: a in annotations ==> Free(a.quote, part) && Free(a.note, part)
    ensures var block := Join(AllLines(annotations), "\n");
            Free(block, part) && NumberedIn(block) == NumberedOfAll(annotations)
    decreases |annotations|
  {
    if annotations == [] {
      NothingNumbered();
    } else {
      var a, more := annotations[0], annotations[1..];
      OneBlock(a, part);
      if more == [] {
        assert AllLines(annotations) == LinesOf(a);
      } else {
        WholeBlock(more, part);
        JoinTwice(LinesOf(a), AllLines(more));
        FreeAcrossLines(Join(LinesOf(a), "\n"), Join(AllLines(more), "\n"), part);
        CountAcrossLines(Join(LinesOf(a), "\n"), Join(AllLines(more), "\n"));
      }
    }
  }

  lemma NothingNumbered()
    ensures NumberedIn("") == 0
  {
    assert Text.Split('\n', "") == [""];
    assert CountNumbered([""]) == 0 by {
      assert [""][1..] == [];
    }
  }

  /** The block with the line breaks around it. */
  lemma FramedBlock(block: string, part: string)
    requires Bracketed(part) && Free(block, part)
    ensures Free("\n" + block + "\n", part) && NumberedIn("\n" + block + "\n") == NumberedIn(block)
  {
    NothingNumbered();
    FreeAfterPrefix("\n", block, part);
    assert Free("", part);
    FreeAcrossLines("\n" + block, "", part);
    CountAcrossLines("\n" + block, "");
    CountAcrossLines("", block);
    assert "\n" + block + "\n" + "" == "\n" + block + "\n";
    assert "" + "\n" + block == "\n" + block;
  }

  // ----- round trip

  lemma LaidOut(text: string, header: string, b: string, footer: string, c: string, marker: string, question: string)
    requires text == header + b + footer + c + marker + question
    requires Bracketed(header) && Bracketed(footer) && header[1] != footer[1] && marker != "" && '[' !in marker
    requires b != "" && Last(b) == '\n' && Free(b, header) && Free(b, footer) && '[' !in c
    requires LastIndexOf(text, marker, |text|) == |header + b + footer + c|
    ensures ParseWith(text, header, footer, marker) == Parsed(question, NumberedIn(b))
  {
    HeaderFound(header, b, footer, c, marker, question);
    FooterFound(header, b, footer, c, marker, question);
    BlockBetween(header, b, footer + c + marker + question);
    Regroup(header, b, footer, c, marker, question);
    assert text[|header + b + footer + c| + |marker|..] == question;
  }

  /** With a later marker, less than the question or the whole text is returned. */
  lemma OtherQuestion(text: string, header: string, footer: string, p: string, marker: string, question: string)
    requires text == p + marker + question && marker != "" && LastIndexOf(text, marker, |text|) > |p|
    ensures ParseWith(text, header, footer, marker).question != question
  {
  }

  lemma HeaderIsBracketed()
    ensures Bracketed(HEADER) && HEADER[1] == 'P'
  {
  }

  lemma FooterIsBracketed()
    ensures Bracketed(FOOTER) && FOOTER[1] == '/'
  {
  }

  lemma MarkerIsPlain()
    ensures MARKER != "" && '[' !in MARKER
  {
  }

  lemma BlockBetween(a: string, b: string, c: string)
    ensures (a + b + c)[|a|..|a + b|] == b
  {
  }

  /** The last marker is the one in front of the question exactly when the question holds none. */
  lemma MarkerFound(p: string, question: string)
    ensures var text := p + MARKER + question;
            && LastIndexOf(text, MARKER, |text|) >= |p|
            && (LastIndexOf(text, MARKER, |text|) == |p| <==> Free(question, MARKER))
  {
    var text := p + MARKER + question;
    var marker := LastIndexOf(text, MARKER, |text|);
    assert OccursAt(text, MARKER, |p|);
    if marker > |p| {
      MarkerOnlyInQuestion(p, question, marker);
    }
    if k :| OccursAt(question, MARKER, k) {
      var there := |p| + |MARKER| + k;
      assert text[there..there + |MARKER|] == question[k..k + |MARKER|];
      assert OccursAt(text, MARKER, there);
    }
  }

  lemma Regroup(a: string, b: string, c: string, d: string, e: string, f: string)
    ensures a + b + c + d + e + f == a + b + c + (d + e) + f == a + b + (c + d + e + f)
  {
  }

  lemma HeaderFound(header: string, b: string, footer: string, c: string, marker: string, question: string)
    requires Bracketed(header) && Bracketed(footer) && header[1] != footer[1]
    requires b != "" && Last(b) == '\n' && Free(b, header) && '[' !in c && marker != "" && '[' !in marker
    ensures LastIndexOf(header + b + footer + c + marker + question, header, |header + b + footer + c|) == 0
  {
    var text := header + b + footer + c + marker + question;
    Regroup(header, b, footer, c, marker, question);
    assert text[0..|header|] == header;
    assert OccursAt(text, header, 0);
    forall k | 0 < k <= |header + b + footer + c|
      ensures !OccursAt(text, header, k)
    {
      HeaderOnlyInFront(header, b, footer, c + marker, question, k);
    }
  }

  lemma FooterFound(header: string, b: string, footer: string, c: string, marker: string, question: string)
    requires Bracketed(header) && Bracketed(footer) && header[1] != footer[1]
    requires b != "" && Last(b) == '\n' && Free(b, footer)
    ensures IndexOf(header + b + footer + c + marker + question, footer, 0) == |header + b|
  {
    var text := header + b + footer + c + marker + question;
    Regroup(header, b, footer, c, marker, question);
    assert text[|header + b|..|header + b| + |footer|] == footer;
    assert OccursAt(text, footer, |header + b|);
    forall k | 0 <= k < |header + b|
      ensures !OccursAt(text, footer, k)
    {
      FooterNotBefore(header, b, footer + c + marker + question, footer, k);
    }
  }

  lemma {:induction false} MentionsArePlain(parts: seq<string>, separator: string)
    requires (forall part :: part in parts ==> '[' !in part) && '[' !in separator
    ensures '[' !in Join(parts, separator)
    decreases |parts|
  {
    if |parts| > 1 {
      MentionsArePlain(parts[1..], separator);
    }
  }

  /** The prompt in the pieces that the parser looks for. */
  lemma Pieces(header: string, block: string, footer: string, instruction: string, mentions: string, marker: string, question: string)
    ensures header + "\n" + block + "\n" + footer + instruction + mentions + marker + question
         == header + ("\n" + block + "\n") + footer + (instruction + mentions) + marker + question
  {
    assert header + "\n" + block + "\n" == header + ("\n" + block + "\n");
    var front := header + "\n" + block + "\n" + footer;
    assert front + instruction + mentions == front + (instruction + mentions);
  }

  lemma InstructionIsPlain(annotations: seq<Annotation>)
    ensures '[' !in INSTRUCTION + Join(Mentions(annotations), "、")
  {
    var mentions := Mentions(annotations);
    forall part | part in mentions
      ensures '[' !in part
    {
      var i :| 0 <= i < |mentions| && mentions[i] == part;
      IdTextIsPlain(annotations[i].id);
    }
    MentionsArePlain(mentions, "、");
  }

  /** Exactly what is found again in a prompt whose quotes and notes hold neither header nor footer:
      the trimmed question unless it holds the marker, and one numbered line for each annotation with
      an id that is not negative and for each further line that looks like a numbered item. */
  lemma FormatThenParse(annotations: seq<Annotation>, question: string)
    requires Clean(annotations)
    ensures var parsed := Parse(Format(annotations, question));
            && (parsed.question == Text.Trim(question) <==> Free(Text.Trim(question), MARKER))
            && (Free(Text.Trim(question), MARKER) ==> parsed.count == NumberedOfAll(annotations))
  {
    var block, mentions := Join(AllLines(annotations), "\n"), Join(Mentions(annotations), "、");
    WholeBlock(annotations, HEADER);
    WholeBlock(annotations, FOOTER);
    FramedBlock(block, HEADER);
    FramedBlock(block, FOOTER);
    InstructionIsPlain(annotations);
    HeaderIsBracketed();
    FooterIsBracketed();
    MarkerIsPlain();
    var b, c, asked := "\n" + block + "\n", INSTRUCTION + mentions, Text.Trim(question);
    Pieces(HEADER, block, FOOTER, INSTRUCTION, mentions, MARKER, asked);
    Settle(Format(annotations, question), b, c, asked);
  }

  lemma Settle(text: string, b: string, c: string, question: string)
    requires Bracketed(HEADER) && Bracketed(FOOTER) && HEADER[1] != FOOTER[1] && '[' !in MARKER
    requires text == HEADER + b + FOOTER + c + MARKER + question
    requires b != "" && Last(b) == '\n' && Free(b, HEADER) && Free(b, FOOTER) && '[' !in c
    ensures Free(question, MARKER) ==> Parse(text) == Parsed(question, NumberedIn(b))
    ensures !Free(question, MARKER) ==> Parse(text).question != question
  {
    var p := HEADER + b + FOOTER + c;
    MarkerFound(p, question);
    if Free(question, MARKER) {
      LaidOut(text, HEADER, b, FOOTER, c, MARKER, question);
    } else {
      OtherQuestion(text, HEADER, FOOTER, p, MARKER, question);
    }
  }

  // ----- numbers and mentions

  function Value(digits: string): int {
    if digits == "" then 0 else 10 * Value(digits[..|digits| - 1]) + (Last(digits) as int - '0' as int)
  }

  /** The number that a text stands for. */
  function NumberIn(text: string): int {
    if text != "" && text[0] == '-' then -Value(text[1..]) else Value(text)
  }

  lemma {:induction false} DigitsExactly(n: nat)
    ensures Value(Digits(n)) == n && (n > 0 ==> Digits(n)[0] != '0')
  {
    var last := ('0' as int + n % 10) as char;
    if n < 10 {
      assert Digits(n) == [last];
    } else {
      DigitsExactly(n / 10);
      assert Digits(n) == Digits(n / 10) + [last];
      assert Digits(n)[..|Digits(n)| - 1] == Digits(n / 10);
    }
  }

  lemma SignedNumber(digits: string)
    requires digits != "" && forall c :: c in digits ==> Digit(c)
    ensures NumberIn("-" + digits) == -Value(digits) && NumberIn(digits) == Value(digits)
  {
    assert ("-" + digits)[1..] == digits;
    assert digits[0] in digits;
  }

  /** An id is printed in decimal, without leading zeros. */
  lemma IdExactly(id: int)
    ensures NumberIn(IdText(id)) == id
    ensures id > 0 ==> '1' <= IdText(id)[0] <= '9'
  {
    var size: nat := if id < 0 then -id else id;
    DigitsExactly(size);
    SignedNumber(Digits(size));
    assert Digits(size)[0] in Digits(size);
  }

  lemma {:induction false} SplitJoined(parts: seq<string>, separator: char)
    requires parts != [] && forall part :: part in parts ==> separator !in part
    ensures Text.Split(separator, Join(parts, [separator])) == parts
    decreases |parts|
  {
    if |parts| == 1 {
      Text.SplitWithout(separator, parts[0]);
    } else {
      SplitJoined(parts[1..], separator);
      Text.SplitWithout(separator, parts[0]);
      Text.SplitAtSeparator(separator, parts[0], Join(parts[1..], [separator]));
    }
  }

  const MENTION := "Annotation "

  lemma MentionOf(id: int)
    ensures var mention := "Annotation " + IdText(id) + "：";
            && '、' !in mention && |mention| > |MENTION| && mention[..|MENTION|] == MENTION && Last(mention) == '：'
            && mention[|MENTION|..|mention| - 1] == IdText(id)
  {
    assert '、' !in IdText(id);
  }

  /** Between instruction and question the prompt names the annotations one by one, each by its id. */
  lemma MentionsRead(annotations: seq<Annotation>)
    requires annotations != []
    ensures var parts := Text.Split('、', Join(Mentions(annotations), "、"));
            && |parts| == |annotations|
            && forall i :: 0 <= i < |parts| ==>
                 && |parts[i]| > |MENTION| && parts[i][..|MENTION|] == MENTION && Last(parts[i]) == '：'
                 && NumberIn(parts[i][|MENTION|..|parts[i]| - 1]) == annotations[i].id
  {
    var parts := Mentions(annotations);
    forall i | 0 <= i < |parts|
      ensures '、' !in parts[i] && |parts[i]| > |MENTION| && parts[i][..|MENTION|] == MENTION && Last(parts[i]) == '：'
      ensures NumberIn(parts[i][|MENTION|..|parts[i]| - 1]) == annotations[i].id
    {
      MentionOf(annotations[i].id);
      IdExactly(annotations[i].id);
    }
    SplitJoined(parts, '、');
  }

  lemma {:induction false} CountsOnce(annotations: seq<Annotation>)
    requires forall a :: a in annotations ==> a.id >= 0
    ensures NumberedOfAll(annotations) >= |annotations|
    ensures NumberedOfAll(annotations) == |annotations| <==>
      forall a :: a in annotations ==> Continuations(a.quote) == 0 && Continuations(a.note) == 0
    decreases |annotations|
  {
    if annotations != [] {
      CountsOnce(annotations[1..]);
      assert annotations[0] in annotations;
      assert forall a :: a in annotations <==> a == annotations[0] || a in annotations[1..];
    }
  }

  /** With ids that are not negative, the prompt is read back in full exactly when the trimmed question
      holds no marker and no further line of a quote or a note looks like a numbered item. */
  lemma RoundTripExactly(annotations: seq<Annotation>, question: string)
    requires Clean(annotations) && forall a :: a in annotations ==> a.id >= 0
    ensures Parse(Format(annotations, question)) == Parsed(Text.Trim(question), |annotations|) <==>
      && Free(Text.Trim(question), MARKER)
      && forall a :: a in annotations ==> Continuations(a.quote) == 0 && Continuations(a.note) == 0
  {
    FormatThenParse(annotations, question);
    CountsOnce(annotations);
  }

  // ----- any text

  ghost predicate LastUpTo(text: string, part: string, limit: int, k: int) {
    OccursAt(text, part, k) && k <= limit && forall j :: k < j <= limit ==> !OccursAt(text, part, j)
  }

  ghost predicate FirstFrom(text: string, part: string, from: int, k: int) {
    OccursAt(text, part, k) && from <= k && forall j :: from <= j < k ==> !OccursAt(text, part, j)
  }

  /** The last marker, the last header that begins no later, and the first footer from there on. */
  ghost predicate Framed(text: string, header: int, footer: int, marker: int) {
    && LastUpTo(text, MARKER, |text|, marker)
    && LastUpTo(text, HEADER, marker, header)
    && FirstFrom(text, FOOTER, header, footer)
  }

  lemma FooterBehindHeader(text: string, header: int, footer: int)
    requires OccursAt(text, HEADER, header) && FirstFrom(text, FOOTER, header, footer)
    ensures header + |HEADER| <= footer
  {
    OccursChar(text, FOOTER, footer, 0);
    OccursChar(text, FOOTER, footer, 1);
    OccursChar(text, HEADER, header, footer - header);
    OccursChar(text, HEADER, header, 1);
    assert Bracketed(HEADER) && HEADER[1] != FOOTER[1];
  }

  /** Any text is split at its last marker, and its numbered lines are counted between header and footer,
      if and only if all three are there; otherwise all of it is the question. */
  lemma ParseExactly(text: string, header: int, footer: int, marker: int)
    ensures Framed(text, header, footer, marker) ==>
              && 0 <= header + |HEADER| <= footer <= |text| && 0 <= marker + |MARKER| <= |text|
              && Parse(text) == Parsed(text[marker + |MARKER|..], NumberedIn(text[header + |HEADER|..footer]))
    ensures (forall h, f, m :: !Framed(text, h, f, m)) <==> Parse(text) == Parsed(text, 0)
  {
    var m := LastIndexOf(text, MARKER, |text|);
    var h := LastIndexOf(text, HEADER, m);
    var f := IndexOf(text, FOOTER, if h < 0 then 0 else h);
    assert MARKER != "";
    if m >= 0 && h >= 0 && f >= 0 {
      assert Framed(text, h, f, m);
      FooterBehindHeader(text, h, f);
    }
    if Framed(text, header, footer, marker) {
      assert marker == m && header == h && footer == f;
    }
  }
}
